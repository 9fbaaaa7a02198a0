/** The loops that walk transactions and BEEF records, as the source writes them. */
module ObjWalk {
  import opened Bytes
  import opened ObjSize
  import T = TxStandard

  method InputVector(buf: bytes, off: nat, count: nat, ef: bool) returns (r: Res<nat>)
    ensures r == Inputs(buf, off, count, ef)
  {
    hide Input;
    var o, i := off, 0;
    while i < count
      invariant i <= count && Inputs(buf, o, count - i, ef) == Inputs(buf, off, count, ef)
    {
      var next := Input(buf, o, ef);
      if !next.Ok? {
        return next;
      }
      o, i := next.value, i + 1;
    }
    r := Ok(o);
  }

  method OutputVector(buf: bytes, off: nat, count: nat) returns (r: Res<nat>)
    ensures r == Outputs(buf, off, count)
  {
    hide Output;
    var o, i := off, 0;
    while i < count
      invariant i <= count && Outputs(buf, o, count - i) == Outputs(buf, off, count)
    {
      var next := Output(buf, o);
      if !next.Ok? {
        return next;
      }
      o, i := next.value, i + 1;
    }
    r := Ok(o);
  }

  method TransactionSize(buf: bytes) returns (r: Res<nat>)
    ensures r == TxSize(buf)
  {
    hide Inputs, Outputs, VarInt;
    if |buf| < 4 {
      return Short;
    }
    var ef := IsEF(buf);
    if !ef && |buf| >= 5 && buf[4] == 0 {
      return if |buf| < 10 then Short else Malformed;
    }
    var off := if ef then 10 else 4;
    var inCount := VarInt(buf, off);
    if !inCount.Ok? {
      return inCount.PropagateFailure();
    }
    if inCount.value.0 == 0 {
      return Malformed;
    }
    var ins := InputVector(buf, off + inCount.value.1, inCount.value.0, ef);
    if !ins.Ok? {
      return ins;
    }
    var outCount := VarInt(buf, ins.value);
    if !outCount.Ok? {
      return outCount.PropagateFailure();
    }
    if outCount.value.0 == 0 {
      return Malformed;
    }
    var outs := OutputVector(buf, ins.value + outCount.value.1, outCount.value.0);
    if !outs.Ok? {
      return outs;
    }
    r := Advance(buf, outs.value, 4);
  }

  /** One unchecked step of the re-walk: where the standard part of the input at `off` ends and
      where its extension ends, from the two script lengths alone. Neither VarInt can fail. */
  method Step(tx: bytes, off: nat) returns (e: nat, next: nat)
    requires Input(tx, off, true).Ok?
    ensures e == Input(tx, off, false).value && next == Input(tx, off, true).value
  {
    hide VarInt;
    T.StandardPart(tx, off);
    var (sLen, w) := VarInt(tx, off + 36).value;
    e := off + 36 + w + sLen + 4;
    var (lLen, v) := VarInt(tx, e + 8).value;
    next := e + 8 + v + lLen;
  }

  /** Appends to `sink`, in order, the spans of `tx` that the standard serialization keeps. */
  method Spans(tx: bytes, sink: bytes) returns (out: bytes)
    requires IsEF(tx) && TxSize(tx) == Ok(|tx|)
    ensures out == sink + T.Stripped(tx)
  {
    hide Inputs, VarInt, Input, T.Kept, TxTail;
    VarIntStands(tx, [], 10);
    assert tx + [] == tx;
    var (count, w) := VarInt(tx, 10).value;
    InputsStand(tx, [], 10 + w, count, true);
    out := sink + tx[..4] + tx[10..10 + w];
    var off: nat, i: nat := 10 + w, 0;
    ghost var front, kept, last := out, T.Kept(tx, off, count), Inputs(tx, off, count, true).value;
    while i < count
      invariant i <= count && off <= |tx|
      invariant Inputs(tx, off, count - i, true) == Ok(last)
      invariant front + kept == out + T.Kept(tx, off, count - i)
    {
      KeptNext(tx, off, count - i);
      var e, next := Step(tx, off);
      Regroup(out, tx[off..e], T.Kept(tx, next, count - i - 1));
      out := out + tx[off..e];
      off, i := next, i + 1;
    }
    KeptEnd(tx, off);
    out := out + tx[off..];
    Assemble(sink, tx[..4], tx[10..10 + w], kept, tx[last..]);
  }

  lemma {:induction false} Regroup(a: bytes, b: bytes, c: bytes)
    ensures a + (b + c) == (a + b) + c
  {
  }

  lemma {:induction false} Assemble(sink: bytes, a: bytes, b: bytes, c: bytes, d: bytes)
    ensures (sink + a + b) + c + d == sink + (a + b + c + d)
  {
  }

  lemma {:induction false} KeptNext(tx: bytes, off: nat, count: nat)
    requires off <= |tx| && count > 0 && Inputs(tx, off, count, true).Ok?
    ensures Input(tx, off, true).Ok? && Input(tx, off, false).Ok?
    ensures off <= Input(tx, off, false).value <= Input(tx, off, true).value <= |tx|
    ensures Inputs(tx, Input(tx, off, true).value, count - 1, true) == Inputs(tx, off, count, true)
    ensures T.Kept(tx, off, count)
         == tx[off..Input(tx, off, false).value] + T.Kept(tx, Input(tx, off, true).value, count - 1)
  {
    T.StandardPart(tx, off);
  }

  lemma {:induction false} KeptEnd(tx: bytes, off: nat)
    requires off <= |tx|
    ensures Inputs(tx, off, 0, true) == Ok(off) && T.Kept(tx, off, 0) == []
  {
  }

  method ToStandard(buf: bytes) returns (r: Res<bytes>)
    ensures r == T.ToStandard(buf)
  {
    hide Inputs, VarInt, TxTail, T.Stripped;
    var n := TransactionSize(buf);
    if !n.Ok? {
      return n.PropagateFailure();
    }
    T.TxSizeCut(buf);
    var tx := buf[..n.value];
    if !IsEF(tx) {
      return Ok(tx);
    }
    var out := Spans(tx, []);
    assert out == T.Stripped(tx);
    r := Ok(out);
  }

  /** The id: SHA-256 twice over the standard serialization, streamed span by span into a hash
      whose state is what has been written to it. `sha` stands for SHA-256. */
  method TxID(buf: bytes, sha: bytes -> Hash32) returns (r: Res<Hash32>)
    ensures r == T.TxID(buf, sha)
  {
    hide Inputs, VarInt, TxTail, T.Stripped;
    var n := TransactionSize(buf);
    if !n.Ok? {
      return n.PropagateFailure();
    }
    T.TxSizeCut(buf);
    var tx := buf[..n.value];
    if !IsEF(tx) {
      return Ok(sha(sha(tx)));
    }
    var written := Spans(tx, []);
    assert written == T.Stripped(tx);
    r := Ok(sha(sha(written)));
  }

  method RecordSize(buf: bytes) returns (r: Res<nat>)
    ensures r == BEEFRecordSize(buf)
  {
    hide GetBE, BEEFObject;
    if |buf| < 2 {
      return Short;
    }
    if GetBE(buf[0..2]) != BEEF_TAG {
      return Malformed;
    }
    if |buf| < 4 {
      return Short;
    }
    if buf[2] != BEEF_VER || !(1 <= buf[3] <= BEEF_MAX_TOPICS) {
      return Malformed;
    }
    var off: nat, i: nat := 4, 0;
    while i < buf[3]
      invariant i <= buf[3] && Topics(buf, off, buf[3] - i) == Topics(buf, 4, buf[3])
    {
      if |buf| < off + 1 {
        return Short;
      }
      var nameLen := buf[off];
      if !(1 <= nameLen <= BEEF_MAX_TOPIC_LEN) {
        return Malformed;
      }
      off, i := off + 1 + nameLen, i + 1;
      if |buf| < off {
        return Short;
      }
    }
    r := BEEFObject(buf, off);
  }
}
