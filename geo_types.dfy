/** Geometry and readout identifiers, and the wire plane record the channel
 *  mapping and the readout-plane builder work on.  The geometry itself
 *  (positions, directions, wire pitch) is not modelled: each plane carries
 *  the few values the algorithms read from it. */
module GeoTypes {

  datatype TPCID = TPCID(cryostat: nat, tpc: nat)

  datatype PlaneID = PlaneID(cryostat: nat, tpc: nat, plane: nat)
  {
    function AsTPCID(): TPCID
    {
      TPCID(cryostat, tpc)
    }
  }

  datatype TPCsetID = TPCsetID(cryostat: nat, tpcset: nat)

  datatype ROPID = ROPID(cryostat: nat, tpcset: nat, rop: nat)
  {
    function AsTPCsetID(): TPCsetID
    {
      TPCsetID(cryostat, tpcset)
    }
  }

  /** `geo::View_t`: the wire orientation classes, and `kUnknown`. */
  datatype View = U | V | Z | Y | X | ThreeD | Unknown

  /** A wire plane as the algorithms see it:
   *  - `view`, `nWires`: its view and its number of wires;
   *  - `driftCoord`: the drift (x) coordinate of its centre;
   *  - `horizontalWires`: whether its wires are horizontal (`|ThetaZ| < 1e-3`);
   *  - `matchedWire`: the wire nearest to the last wire of the plane before
   *    it in its readout plane (`PlaneGeo::NearestWireID`). */
  datatype Plane = Plane(id: PlaneID, view: View, nWires: nat, driftCoord: real,
                         horizontalWires: bool, matchedWire: nat)
}
