/** A list that the writer puts into a buffer and the reader takes out again. */
module DerCalls {
  import opened Octets
  import opened Der
  import DerWriter
  import opened DerReader

  /**
   * Object identifiers written as an extension come back, the same in the same order, whenever they fit and the
   * reader can allocate a place for each.
   */
  method ExtKeyUsageThereAndBack(exts: seq<Entry>, answers: nat -> int) returns (ret: int, status: Status, es: seq<Entry>)
    ensures ret == 0 && status == Done ==> es == exts
    ensures ret == 0 ==> (status == Done <==> forall i: nat :: i < |exts| ==> answers(i) == 0)
    ensures ret == 0 <==>
      exts != [] && (forall i :: 0 <= i < |exts| ==> exts[i].tag == TAG_OID) && DerWriter.Fits(exts)
  {
    hide Tlv, Entries, Der.GetSequenceOf;
    var der;
    ret, der := DerWriter.ExtKeyUsage(exts);
    status, es := Done, [];
    if ret == 0 {
      var reader := new Reader(der);
      assert der[0..|der|] == der;
      status, es := reader.GetSequenceOf(|der|, TAG_OID, answers);
      SequenceRoundTrip(exts, TAG_OID, answers);
    }
  }
}
