/** Self-delimiting push objects: how many leading bytes of a buffer form one object of a class.
    Every class is shown to be a prefix code, which is what lets a stream carry bare objects. */
module ObjSize {
  import opened Bytes

  /** Short asks for more bytes; Malformed holds whatever bytes follow. */
  datatype Res<+T> = Ok(value: T) | Short | Malformed | NotRegistered {
    predicate IsFailure() {
      !Ok?
    }
    function PropagateFailure<U>(): Res<U>
      requires !Ok?
    {
      match this
      case Short => Short
      case Malformed => Malformed
      case NotRegistered => NotRegistered
    }
    function Extract(): T
      requires Ok?
    {
      value
    }
  }

  datatype Class = ClassTx | ClassSubtree | ClassBlock | ClassBEEF | ClassBEEFDelivery | ClassBlockHeader
                 | ClassUnknown

  // ---- transactions ---------------------------------------------------------------------

  const EF_MARKER: bytes := [0, 0, 0, 0, 0, 0xEF]

  predicate IsEF(tx: bytes) {
    |tx| >= 10 && tx[4..10] == EF_MARKER
  }

  function VarIntWidth(first: byte): (w: nat)
    ensures 1 <= w <= 9
  {
    if first < 0xFD then 1 else if first == 0xFD then 3 else if first == 0xFE then 5 else 9
  }

  /** The Bitcoin compact-size integer at `off`: its value and its width. */
  function VarInt(buf: bytes, off: nat): Res<(nat, nat)> {
    if off >= |buf| then Short
    else
      var w := VarIntWidth(buf[off]);
      if off + w > |buf| then Short
      else Ok((if w == 1 then buf[off] else GetLE(buf[off + 1..off + w]), w))
  }

  /** `off + n`, within 32-bit limits and the buffer. */
  function Advance(buf: bytes, off: nat, n: nat): Res<nat> {
    if n > MAX_INT32 || off > MAX_INT32 then Malformed
    else if off + n > |buf| then Short
    else Ok(off + n)
  }

  /** Past a script: a VarInt length and that many bytes. */
  function Script(buf: bytes, off: nat): Res<nat> {
    var (len, w) :- VarInt(buf, off);
    Advance(buf, off + w, len)
  }

  /** Past an input: outpoint, unlocking script, sequence, and in Extended Format the value and
      locking script of the output it spends. */
  function Input(buf: bytes, off: nat, ef: bool): Res<nat> {
    var a :- Advance(buf, off, 36);
    var b :- Script(buf, a);
    var c :- Advance(buf, b, 4);
    if !ef then Ok(c)
    else
      var d :- Advance(buf, c, 8);
      Script(buf, d)
  }

  function Output(buf: bytes, off: nat): Res<nat> {
    var a :- Advance(buf, off, 8);
    Script(buf, a)
  }

  function Inputs(buf: bytes, off: nat, count: nat, ef: bool): Res<nat>
    decreases count
  {
    if count == 0 then Ok(off)
    else
      var o :- Input(buf, off, ef);
      Inputs(buf, o, count - 1, ef)
  }

  function Outputs(buf: bytes, off: nat, count: nat): Res<nat>
    decreases count
  {
    if count == 0 then Ok(off)
    else
      var o :- Output(buf, off);
      Outputs(buf, o, count - 1)
  }

  /** From the input count at `off` to the end of the locktime. */
  function TxBody(buf: bytes, off: nat, ef: bool): Res<nat> {
    var (inCount, w) :- VarInt(buf, off);
    if inCount == 0 then Malformed
    else
      var o :- Inputs(buf, off + w, inCount, ef);
      TxTail(buf, o)
  }

  /** From the output count at `off` to the end of the locktime. */
  function TxTail(buf: bytes, off: nat): Res<nat> {
    var (outCount, w) :- VarInt(buf, off);
    if outCount == 0 then Malformed
    else
      var o :- Outputs(buf, off + w, outCount);
      Advance(buf, o, 4)
  }

  function TxSize(buf: bytes): Res<nat> {
    if |buf| < 4 then Short
    else if IsEF(buf) then TxBody(buf, 10, true)
    else if |buf| >= 5 && buf[4] == 0 then (if |buf| < 10 then Short else Malformed)
    else TxBody(buf, 4, false)
  }

  // ---- the other classes ----------------------------------------------------------------

  const SUBTREE_HEADER := 40
  const BLOCK_PREFIX := 104
  const BLOCK_HEADER := 80
  const HASH := 32
  const BEEF_TAG := 0xBEEF
  const BEEF_VER := 1
  const BEEF_MAX_TOPICS := 15
  const BEEF_MAX_TOPIC_LEN := 64
  const BEEF_DELIVERY_HEADER := 36

  function SubtreeSize(buf: bytes): Res<nat> {
    if |buf| < SUBTREE_HEADER then Short
    else
      var n := GetBE(buf[32..40]);
      if n > (MAX_INT64 - SUBTREE_HEADER) / HASH then Malformed
      else if |buf| < SUBTREE_HEADER + n * HASH then Short
      else Ok(SUBTREE_HEADER + n * HASH)
  }

  function BlockSize(buf: bytes): Res<nat> {
    if |buf| < BLOCK_PREFIX then Short
    else
      var m := GetBE(buf[96..104]);
      if m > (MAX_INT64 - BLOCK_PREFIX) / HASH then Malformed
      else
        var off := BLOCK_PREFIX + m * HASH;
        if |buf| < off then Short
        else
          var cb :- TxSize(buf[off..]);
          BlockTail(buf, off + cb)
  }

  /** Height, coinbase BUMP length, coinbase BUMP. */
  function BlockTail(buf: bytes, off: nat): Res<nat> {
    if |buf| < off + 16 then Short
    else
      var l := GetBE(buf[off + 8..off + 16]);
      if l > MAX_INT64 - (off + 16) then Malformed
      else if |buf| < off + 16 + l then Short
      else Ok(off + 16 + l)
  }

  /** Past `count` topic names of a submission record. */
  function Topics(buf: bytes, off: nat, count: nat): Res<nat>
    decreases count
  {
    if count == 0 then Ok(off)
    else if |buf| < off + 1 then Short
    else if !(1 <= buf[off] <= BEEF_MAX_TOPIC_LEN) then Malformed
    else if |buf| < off + 1 + buf[off] then Short
    else Topics(buf, off + 1 + buf[off], count - 1)
  }

  function BEEFObject(buf: bytes, off: nat): Res<nat> {
    if |buf| < off + 4 then Short
    else
      var n := GetBE(buf[off..off + 4]);
      if n == 0 || n > MAX_INT64 - off - 4 then Malformed
      else if |buf| < off + 4 + n then Short
      else Ok(off + 4 + n)
  }

  function BEEFRecordSize(buf: bytes): Res<nat> {
    if |buf| < 2 then Short
    else if GetBE(buf[0..2]) != BEEF_TAG then Malformed
    else if |buf| < 4 then Short
    else if buf[2] != BEEF_VER || !(1 <= buf[3] <= BEEF_MAX_TOPICS) then Malformed
    else
      var off :- Topics(buf, 4, buf[3]);
      BEEFObject(buf, off)
  }

  function BEEFDeliverySize(buf: bytes): Res<nat> {
    if |buf| < BEEF_DELIVERY_HEADER then Short else BEEFObject(buf, 32)
  }

  function BlockHeaderSize(buf: bytes): Res<nat> {
    if |buf| < BLOCK_HEADER then Short else Ok(BLOCK_HEADER)
  }

  function Size(c: Class, buf: bytes): Res<nat> {
    match c
    case ClassTx => TxSize(buf)
    case ClassSubtree => SubtreeSize(buf)
    case ClassBlock => BlockSize(buf)
    case ClassBEEF => BEEFRecordSize(buf)
    case ClassBEEFDelivery => BEEFDeliverySize(buf)
    case ClassBlockHeader => BlockHeaderSize(buf)
    case ClassUnknown => NotRegistered
  }

  // ---- prefix stability -----------------------------------------------------------------

  /** `r`, from a buffer of length `len` walked from `from`, against `more`, from an extension
      of it: what is decided stays decided, and an end within `len` is already found there. */
  predicate Stands(r: Res<nat>, more: Res<nat>, from: nat, len: nat) {
    && (r.Ok? ==> r.value <= len && more == r)
    && (r.Malformed? ==> more == r)
    && (more.Ok? ==> from <= more.value && (more.value <= len ==> r == more))
    && !r.NotRegistered? && !more.NotRegistered?
  }

  lemma {:induction false} VarIntStands(buf: bytes, suf: bytes, off: nat)
    ensures var r, more := VarInt(buf, off), VarInt(buf + suf, off);
      && (r.Ok? ==> more == r && off + r.value.1 <= |buf|)
      && (!r.Ok? ==> r.Short?) && (!more.Ok? ==> more.Short?)
      && (more.Ok? ==> more.value.1 >= 1 && (off + more.value.1 <= |buf| ==> r == more))
  {
    if off < |buf| {
      var w := VarIntWidth(buf[off]);
      if off + w <= |buf| {
        assert (buf + suf)[off + 1..off + w] == buf[off + 1..off + w];
      }
    }
  }

  lemma {:induction false} ScriptStands(buf: bytes, suf: bytes, off: nat)
    ensures Stands(Script(buf, off), Script(buf + suf, off), off + 1, |buf|)
  {
    hide VarInt;
    VarIntStands(buf, suf, off);
  }

  lemma {:induction false} InputStands(buf: bytes, suf: bytes, off: nat, ef: bool)
    ensures Stands(Input(buf, off, ef), Input(buf + suf, off, ef), off + 41, |buf|)
  {
    hide Script;
    var a := Advance(buf + suf, off, 36);
    if a.Ok? {
      ScriptStands(buf, suf, a.value);
      var b := Script(buf + suf, a.value);
      if b.Ok? && ef {
        ScriptStands(buf, suf, b.value + 12);
      }
    }
  }

  lemma {:induction false} InputsStand(buf: bytes, suf: bytes, off: nat, count: nat, ef: bool)
    requires off <= |buf| || count > 0
    ensures Stands(Inputs(buf, off, count, ef), Inputs(buf + suf, off, count, ef), off, |buf|)
    decreases count
  {
    hide Input;
    if count > 0 {
      InputStands(buf, suf, off, ef);
      var o := Input(buf + suf, off, ef);
      if o.Ok? && (o.value <= |buf| || count > 1) {
        InputsStand(buf, suf, o.value, count - 1, ef);
      }
    }
  }

  lemma {:induction false} OutputStands(buf: bytes, suf: bytes, off: nat)
    ensures Stands(Output(buf, off), Output(buf + suf, off), off + 9, |buf|)
  {
    hide Script;
    var a := Advance(buf + suf, off, 8);
    if a.Ok? {
      ScriptStands(buf, suf, a.value);
    }
  }

  lemma {:induction false} OutputsStand(buf: bytes, suf: bytes, off: nat, count: nat)
    requires off <= |buf| || count > 0
    ensures Stands(Outputs(buf, off, count), Outputs(buf + suf, off, count), off, |buf|)
    decreases count
  {
    hide Output;
    if count > 0 {
      OutputStands(buf, suf, off);
      var o := Output(buf + suf, off);
      if o.Ok? && (o.value <= |buf| || count > 1) {
        OutputsStand(buf, suf, o.value, count - 1);
      }
    }
  }

  lemma {:induction false} TxTailStands(buf: bytes, suf: bytes, off: nat)
    ensures Stands(TxTail(buf, off), TxTail(buf + suf, off), off + 5, |buf|)
  {
    hide Outputs, VarInt;
    VarIntStands(buf, suf, off);
    var v := VarInt(buf + suf, off);
    if v.Ok? && v.value.0 > 0 {
      OutputsStand(buf, suf, off + v.value.1, v.value.0);
    }
  }

  lemma {:induction false} TxBodyStands(buf: bytes, suf: bytes, off: nat, ef: bool)
    ensures Stands(TxBody(buf, off, ef), TxBody(buf + suf, off, ef), off + 6, |buf|)
  {
    hide Inputs, TxTail, VarInt;
    VarIntStands(buf, suf, off);
    var v := VarInt(buf + suf, off);
    if v.Ok? && v.value.0 > 0 {
      InputsStand(buf, suf, off + v.value.1, v.value.0, ef);
      var o := Inputs(buf + suf, off + v.value.1, v.value.0, ef);
      if o.Ok? {
        TxTailStands(buf, suf, o.value);
      }
    }
  }

  lemma {:induction false} NoBody(buf: bytes)
    requires |buf| == 4
    ensures TxBody(buf, 4, false) == Short
  {
  }

  lemma {:induction false} TxSizeStands(buf: bytes, suf: bytes)
    ensures Stands(TxSize(buf), TxSize(buf + suf), 10, |buf|)
  {
    hide TxBody;
    TxBodyStands(buf, suf, 10, true);
    TxBodyStands(buf, suf, 4, false);
    if |buf| >= 10 {
      assert (buf + suf)[4..10] == buf[4..10];
    } else if |buf| == 4 {
      NoBody(buf);
    } else if IsEF(buf + suf) {
      assert EF_MARKER[0] == (buf + suf)[4..10][0];
    }
  }

  lemma {:induction false} SubtreeSizeStands(buf: bytes, suf: bytes)
    ensures Stands(SubtreeSize(buf), SubtreeSize(buf + suf), 1, |buf|)
  {
    if |buf| >= SUBTREE_HEADER {
      assert (buf + suf)[32..40] == buf[32..40];
    }
  }

  lemma {:induction false} BlockTailStands(buf: bytes, suf: bytes, off: nat)
    ensures Stands(BlockTail(buf, off), BlockTail(buf + suf, off), off, |buf|)
  {
    if |buf| >= off + 16 {
      assert (buf + suf)[off + 8..off + 16] == buf[off + 8..off + 16];
    }
  }

  lemma {:induction false} BlockSizeLow(buf: bytes)
    ensures !BlockSize(buf).NotRegistered?
    ensures BlockSize(buf).Ok? ==>
      |buf| >= BLOCK_PREFIX && BlockSize(buf).value >= BLOCK_PREFIX + GetBE(buf[96..104]) * HASH
  {
    hide TxSize, BlockTail, GetBE;
    if |buf| >= BLOCK_PREFIX {
      var off := BLOCK_PREFIX + GetBE(buf[96..104]) * HASH;
      if |buf| >= off {
        TxSizeStands(buf[off..], []);
        var cb := TxSize(buf[off..]);
        if cb.Ok? {
          BlockTailStands(buf, [], off + cb.value);
          assert buf + [] == buf;
        }
      }
    }
  }

  lemma {:induction false} BlockSizeStands(buf: bytes, suf: bytes)
    ensures Stands(BlockSize(buf), BlockSize(buf + suf), 1, |buf|)
  {
    hide TxSize, BlockTail, GetBE;
    BlockSizeLow(buf + suf);
    if |buf| >= BLOCK_PREFIX {
      assert (buf + suf)[96..104] == buf[96..104];
      var off := BLOCK_PREFIX + GetBE(buf[96..104]) * HASH;
      if |buf| >= off {
        assert (buf + suf)[off..] == buf[off..] + suf;
        TxSizeStands(buf[off..], suf);
        var cb := TxSize(buf[off..] + suf);
        if cb.Ok? {
          BlockTailStands(buf, suf, off + cb.value);
        }
      }
    }
  }

  lemma {:induction false} TopicsStand(buf: bytes, suf: bytes, off: nat, count: nat)
    requires off <= |buf| || count > 0
    ensures Stands(Topics(buf, off, count), Topics(buf + suf, off, count), off, |buf|)
    decreases count
  {
    if count > 0 && off < |buf + suf| {
      var o := off + 1 + (buf + suf)[off];
      if o <= |buf| || count > 1 {
        TopicsStand(buf, suf, o, count - 1);
      }
    }
  }

  lemma {:induction false} BEEFObjectStands(buf: bytes, suf: bytes, off: nat)
    ensures Stands(BEEFObject(buf, off), BEEFObject(buf + suf, off), off + 4, |buf|)
  {
    if |buf| >= off + 4 {
      assert (buf + suf)[off..off + 4] == buf[off..off + 4];
    }
  }

  lemma {:induction false} BEEFRecordSizeStands(buf: bytes, suf: bytes)
    ensures Stands(BEEFRecordSize(buf), BEEFRecordSize(buf + suf), 1, |buf|)
  {
    hide Topics, BEEFObject, GetBE;
    if |buf| >= 2 {
      assert (buf + suf)[0..2] == buf[0..2];
    }
    if |buf + suf| >= 4 {
      var count := (buf + suf)[3];
      if |buf| >= 4 || count > 0 {
        TopicsStand(buf, suf, 4, count);
      }
      var o := Topics(buf + suf, 4, count);
      if o.Ok? {
        BEEFObjectStands(buf, suf, o.value);
      }
    }
  }

  lemma {:induction false} SizeStands(c: Class, buf: bytes, suf: bytes)
    requires !c.ClassUnknown?
    ensures Stands(Size(c, buf), Size(c, buf + suf), 1, |buf|)
  {
    match c
    case ClassTx => TxSizeStands(buf, suf);
    case ClassSubtree => SubtreeSizeStands(buf, suf);
    case ClassBlock => BlockSizeStands(buf, suf);
    case ClassBEEF => BEEFRecordSizeStands(buf, suf);
    case ClassBEEFDelivery => BEEFObjectStands(buf, suf, 32);
    case ClassBlockHeader =>
  }

  // ---- the prefix-code laws -------------------------------------------------------------

  /** A size found is at least one byte, lies in the buffer, and no suffix changes it. */
  lemma {:induction false} SizeIgnoresSuffix(c: Class, buf: bytes, suf: bytes)
    requires Size(c, buf).Ok?
    ensures 1 <= Size(c, buf).value <= |buf| && Size(c, buf + suf) == Size(c, buf)
  {
    SizeStands(c, buf, suf);
    assert Size(c, buf + suf) == Size(c, buf);
  }

  /** Malformed bytes stay malformed whatever follows. */
  lemma {:induction false} MalformedIsFinal(c: Class, buf: bytes, suf: bytes)
    requires Size(c, buf).Malformed?
    ensures Size(c, buf + suf).Malformed?
  {
    SizeStands(c, buf, suf);
  }

  /** Every strict prefix of an object asks for more bytes. */
  lemma {:induction false} StrictPrefixIsShort(c: Class, buf: bytes, k: nat)
    requires Size(c, buf).Ok? && k < Size(c, buf).value
    ensures k <= |buf| && Size(c, buf[..k]) == Short
  {
    SizeIgnoresSuffix(c, buf, []);
    SizeStands(c, buf[..k], buf[k..]);
    assert buf[..k] + buf[k..] == buf;
  }

  /** The size depends on the object's own bytes alone. */
  lemma {:induction false} SizeOfObjectAlone(c: Class, buf: bytes)
    requires Size(c, buf).Ok?
    ensures 1 <= Size(c, buf).value <= |buf| && Size(c, buf[..Size(c, buf).value]) == Size(c, buf)
  {
    hide Size;
    var n := Size(c, buf).value;
    SizeIgnoresSuffix(c, buf, []);
    Registered(c, buf);
    SizeStands(c, buf[..n], buf[n..]);
    assert buf[..n] + buf[n..] == buf;
  }

  lemma {:induction false} Registered(c: Class, buf: bytes)
    ensures c.ClassUnknown? <==> Size(c, buf).NotRegistered?
  {
    if !c.ClassUnknown? {
      SizeStands(c, buf, []);
    }
  }
}
