/** The actions of pox/openflow/libopenflow_01.py (OpenFlow Switch Specification 1.0.0, section 5.2.4). */
module OfpActions {
  import opened OfpMatch

  /** An action's type number. */
  type Type = n: nat | n < 0x1_0000

  datatype Action =
    | Output(port: bv16, maxLen: bv16)
    | SetVlanVid(vlanVid: bv16)
    | SetVlanPcp(vlanPcp: bv8)
    | StripVlan
    | SetDlSrc(dlAddr: Eth)
    | SetDlDst(dlAddr: Eth)
    | SetNwSrc(nwAddr: bv32)
    | SetNwDst(nwAddr: bv32)
    | SetNwTos(nwTos: bv8)
    | SetTpSrc(tpPort: bv16)
    | SetTpDst(tpPort: bv16)
    | Enqueue(port: bv16, queueId: bv32)
    | Vendor(vendor: bv32, body: seq<bv8>)
    | Generic(typ: Type, data: seq<bv8>)
}
