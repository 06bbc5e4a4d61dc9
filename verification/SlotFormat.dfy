/**
 A format that writes a fixed number of slots one after the other and reads them
 back the same way. The writer and the reader of one slot are parameters; what they
 promise of one slot is lifted here to the whole sequence.
 */
module SlotFormat {
  import opened Basics
  import opened Wire

  /** The slot reader: slot number and octets to the value and the octets it took. */
  type Reader<!V> = (nat, bytes) -> Option<(V, nat)>

  type Writer<!V> = (nat, V) -> bytes

  function Write<V>(write: Writer<V>, values: seq<V>): bytes {
    if values == [] then []
    else Write(write, values[..|values| - 1]) + write(|values| - 1, values[|values| - 1])
  }

  function Read<V>(read: Reader<V>, k: nat, bs: bytes): (r: Option<(seq<V>, nat)>)
    ensures r.Some? ==> |r.value.0| == k && r.value.1 <= |bs|
  {
    if k == 0 then Some(([], 0))
    else
      var (values, n) :- Read(read, k - 1, bs);
      var (v, m) :- read(k - 1, bs[n..]);
      if n + m > |bs| then None else Some((values + [v], n + m))
  }

  lemma WriteOneMore<V>(write: Writer<V>, values: seq<V>, k: nat)
    requires k < |values|
    ensures Write(write, values[..k + 1]) == Write(write, values[..k]) + write(k, values[k])
  {
    assert values[..k + 1][..k] == values[..k];
  }

  /** Fourteen slots stand one behind the other. */
  lemma WriteOfFourteen<V>(write: Writer<V>, v: seq<V>)
    requires |v| == 14
    ensures Write(write, v) == write(0, v[0]) + write(1, v[1]) + write(2, v[2]) + write(3, v[3]) + write(4, v[4])
                             + write(5, v[5]) + write(6, v[6]) + write(7, v[7]) + write(8, v[8]) + write(9, v[9])
                             + write(10, v[10]) + write(11, v[11]) + write(12, v[12]) + write(13, v[13])
  {
    WriteNone(write, v);
    hide Write;
    assert [] + write(0, v[0]) == write(0, v[0]);
    WriteOneMore(write, v, 0);
    WriteOneMore(write, v, 1);
    WriteOneMore(write, v, 2);
    WriteOneMore(write, v, 3);
    WriteOneMore(write, v, 4);
    WriteOneMore(write, v, 5);
    WriteOneMore(write, v, 6);
    WriteOneMore(write, v, 7);
    WriteOneMore(write, v, 8);
    WriteOneMore(write, v, 9);
    WriteOneMore(write, v, 10);
    WriteOneMore(write, v, 11);
    WriteOneMore(write, v, 12);
    WriteOneMore(write, v, 13);
    assert v[..14] == v;
  }

  lemma WriteNone<V>(write: Writer<V>, values: seq<V>)
    ensures Write(write, values[..0]) == []
  {
  }

  lemma {:induction false} WriteGrows<V>(write: Writer<V>, values: seq<V>, k: nat)
    requires k <= |values|
    ensures |Write(write, values[..k])| <= |Write(write, values)|
    decreases |values| - k
  {
    if k < |values| {
      WriteOneMore(write, values, k);
      WriteGrows(write, values, k + 1);
    } else {
      assert values[..k] == values;
    }
  }

  lemma Seams(before: bytes, slot: bytes, rest: bytes)
    ensures before + slot + rest == before + (slot + rest)
    ensures (before + slot + rest)[|before|..] == slot + rest
  {
  }

  /** If every slot is read back whatever follows it, so is the sequence. */
  lemma {:induction false} ReadInvertsWrite<V>(read: Reader<V>, write: Writer<V>, values: seq<V>, rest: bytes)
    requires forall i: nat, after: bytes :: i < |values| ==>
               read(i, write(i, values[i]) + after) == Some((values[i], |write(i, values[i])|))
    ensures Read(read, |values|, Write(write, values) + rest) == Some((values, |Write(write, values)|))
  {
    if values != [] {
      var k := |values| - 1;
      var before, slot := Write(write, values[..k]), write(k, values[k]);
      ReadInvertsWrite(read, write, values[..k], slot + rest);
      Seams(before, slot, rest);
      assert values == values[..k] + [values[k]];
    }
  }

  lemma WriteAppended<V>(write: Writer<V>, values: seq<V>, v: V)
    ensures Write(write, values + [v]) == Write(write, values) + write(|values|, v)
  {
    assert (values + [v])[..|values|] == values;
  }

  /** If every slot that can be read is written back octet for octet, so is the sequence. */
  lemma {:induction false} WriteInvertsRead<V>(read: Reader<V>, write: Writer<V>, k: nat, bs: bytes)
    requires forall i: nat, from: bytes :: i < k && read(i, from).Some? && read(i, from).value.1 <= |from| ==>
               write(i, read(i, from).value.0) == from[..read(i, from).value.1]
    requires Read(read, k, bs).Some?
    ensures Write(write, Read(read, k, bs).value.0) == bs[..Read(read, k, bs).value.1]
  {
    if k > 0 {
      var (values, n) := Read(read, k - 1, bs).value;
      var (v, m) := read(k - 1, bs[n..]).value;
      WriteInvertsRead(read, write, k - 1, bs);
      WriteAppended(write, values, v);
      hide Write;
      assert write(k - 1, v) == bs[n..][..m];
      assert bs[..n + m] == bs[..n] + bs[n..][..m];
    }
  }

  /** What holds of every value a slot can deliver holds of every value of the sequence. */
  lemma {:induction false} ReadImage<V>(read: Reader<V>, good: (nat, V) -> bool, k: nat, bs: bytes)
    requires forall i: nat, from: bytes :: i < k && read(i, from).Some? ==> good(i, read(i, from).value.0)
    requires Read(read, k, bs).Some?
    ensures forall i :: 0 <= i < k ==> good(i, Read(read, k, bs).value.0[i])
  {
    if k > 0 {
      ReadImage(read, good, k - 1, bs);
      var (values, n) := Read(read, k - 1, bs).value;
      assert read(k - 1, bs[n..]).Some?;
    }
  }

  /** Once a slot cannot be read, nothing later can. */
  lemma {:induction false} ReadFailsForGood<V>(read: Reader<V>, k: nat, l: nat, bs: bytes)
    requires k <= l && Read(read, k, bs).None?
    ensures Read(read, l, bs).None?
  {
    if k < l {
      ReadFailsForGood(read, k, l - 1, bs);
    }
  }

  lemma ReadOneMore<V>(read: Reader<V>, k: nat, bs: bytes, values: seq<V>, n: nat, v: V, m: nat)
    requires Read(read, k, bs) == Some((values, n))
    requires read(k, bs[n..]) == Some((v, m)) && n + m <= |bs|
    ensures Read(read, k + 1, bs) == Some((values + [v], n + m))
  {
  }

  lemma ReadStops<V>(read: Reader<V>, k: nat, l: nat, bs: bytes)
    requires k < l && Read(read, k, bs).Some?
    requires read(k, bs[Read(read, k, bs).value.1..]).None?
    ensures Read(read, l, bs).None?
  {
    ReadFailsForGood(read, k + 1, l, bs);
  }

  /** The value read in slot k. */
  function ValueAt<V>(read: Reader<V>, k: nat, bs: bytes): V
    requires Read(read, k + 1, bs).Some?
  {
    Read(read, k + 1, bs).value.0[k]
  }

  lemma {:induction false} ReadPrefix<V>(read: Reader<V>, k: nat, l: nat, bs: bytes)
    requires k < l && Read(read, l, bs).Some?
    ensures Read(read, k + 1, bs).Some?
    ensures Read(read, l, bs).value.0[k] == ValueAt(read, k, bs)
  {
    if k + 1 < l {
      ReadPrefix(read, k, l - 1, bs);
    }
  }
}
