/** Standard serialization and transaction id. ToStandard and TxID re-walk bytes TxSize has
    accepted without further bounds checks; the methods here are verified in bounds. */
module TxStandard {
  import opened Bytes
  import opened ObjSize

  // ---- moving a walk to another buffer --------------------------------------------------

  /** The same `n` bytes stand at `i` in `a` and at `j` in `b`. */
  predicate Same(a: bytes, i: nat, b: bytes, j: nat, n: nat) {
    i + n <= |a| && j + n <= |b| && a[i..i + n] == b[j..j + n]
  }

  lemma {:induction false} SameWithin(a: bytes, i: nat, b: bytes, j: nat, n: nat, k: nat, m: nat)
    requires Same(a, i, b, j, n) && k + m <= n
    ensures Same(a, i + k, b, j + k, m)
  {
    var x, y := a[i + k..i + k + m], b[j + k..j + k + m];
    forall t | 0 <= t < m ensures x[t] == y[t] {
      assert a[i..i + n][k + t] == b[j..j + n][k + t];
    }
  }

  lemma {:induction false} SameParts(p: bytes, q: bytes, r: bytes, b: bytes, j: nat)
    requires Same(p + q + r, 0, b, j, |p + q + r|)
    ensures b[j..j + |p|] == p && Same(q, 0, b, j + |p|, |q|) && Same(r, 0, b, j + |p| + |q|, |r|)
  {
    var s := p + q + r;
    SameWithin(s, 0, b, j, |s|, 0, |p|);
    SameWithin(s, 0, b, j, |s|, |p|, |q|);
    SameWithin(s, 0, b, j, |s|, |p| + |q|, |r|);
    assert s[0..|p|] == p && s[|p|..|p| + |q|] == q && s[|p| + |q|..|p| + |q| + |r|] == r;
    assert q[0..|q|] == q && r[0..|r|] == r;
  }

  lemma {:induction false} VarIntMoves(a: bytes, i: nat, b: bytes, j: nat)
    requires VarInt(a, i).Ok? && Same(a, i, b, j, VarInt(a, i).value.1)
    ensures VarInt(b, j) == VarInt(a, i)
  {
    var w := VarInt(a, i).value.1;
    assert a[i..i + w][0] == a[i] && b[j..j + w][0] == b[j];
    SameWithin(a, i, b, j, w, 1, w - 1);
  }

  /** A script moved left, or moved anywhere it is still accepted, has the same extent. */
  lemma {:induction false} ScriptMoves(a: bytes, i: nat, b: bytes, j: nat)
    requires Script(a, i).Ok? && Script(a, i).value >= i
    requires Same(a, i, b, j, Script(a, i).value - i)
    requires j <= i || Script(b, j).Ok?
    ensures Script(b, j) == Ok(j + Script(a, i).value - i)
  {
    var w := VarInt(a, i).value.1;
    SameWithin(a, i, b, j, Script(a, i).value - i, 0, w);
    VarIntMoves(a, i, b, j);
  }

  lemma {:induction false} InputMoves(a: bytes, i: nat, b: bytes, j: nat)
    requires Input(a, i, false).Ok? && Input(a, i, false).value >= i
    requires Same(a, i, b, j, Input(a, i, false).value - i)
    requires j <= i || Input(b, j, false).Ok?
    ensures Input(b, j, false) == Ok(j + Input(a, i, false).value - i)
  {
    hide Script;
    var n := Input(a, i, false).value - i;
    var s := Script(a, i + 36);
    ScriptStands(a, [], i + 36);
    SameWithin(a, i, b, j, n, 36, s.value - (i + 36));
    ScriptMoves(a, i + 36, b, j + 36);
  }

  lemma {:induction false} OutputsMove(a: bytes, i: nat, b: bytes, j: nat, count: nat)
    requires i <= |a| && Outputs(a, i, count).Ok? && Outputs(a, i, count).value >= i
    requires Same(a, i, b, j, Outputs(a, i, count).value - i)
    requires j <= i || Outputs(b, j, count).Ok?
    ensures Outputs(b, j, count) == Ok(j + Outputs(a, i, count).value - i)
    decreases count
  {
    hide Output;
    if count > 0 {
      var n := Outputs(a, i, count).value - i;
      OutputStands(a, [], i);
      assert a + [] == a;
      var o := Output(a, i).value;
      OutputsStand(a, [], o, count - 1);
      SameWithin(a, i, b, j, n, 0, o - i);
      OutputMoves(a, i, b, j);
      SameWithin(a, i, b, j, n, o - i, i + n - o);
      hide Same;
      OutputsMove(a, o, b, j + o - i, count - 1);
    }
  }

  lemma {:induction false} OutputMoves(a: bytes, i: nat, b: bytes, j: nat)
    requires Output(a, i).Ok? && i + 8 <= Output(a, i).value && Same(a, i, b, j, Output(a, i).value - i)
    requires j <= i || Output(b, j).Ok?
    ensures Output(b, j) == Ok(j + Output(a, i).value - i)
  {
    hide Script;
    var n := Output(a, i).value - i;
    SameWithin(a, i, b, j, n, 8, n - 8);
    ScriptMoves(a, i + 8, b, j + 8);
  }

  lemma {:induction false} TxTailMoves(a: bytes, i: nat, b: bytes, j: nat)
    requires TxTail(a, i).Ok? && TxTail(a, i).value >= i
    requires Same(a, i, b, j, TxTail(a, i).value - i)
    requires j <= i || TxTail(b, j).Ok?
    ensures TxTail(b, j) == Ok(j + TxTail(a, i).value - i)
  {
    hide Outputs, VarInt;
    var n := TxTail(a, i).value - i;
    VarIntStands(a, [], i);
    var (count, w) := VarInt(a, i).value;
    OutputsStand(a, [], i + w, count);
    SameWithin(a, i, b, j, n, 0, w);
    VarIntMoves(a, i, b, j);
    var o := Outputs(a, i + w, count).value;
    SameWithin(a, i, b, j, n, w, o - (i + w));
    OutputsMove(a, i + w, b, j + w, count);
  }

  // ---- the standard serialization -------------------------------------------------------

  /** The standard part of an Extended Format input ends where the same input without
      extensions would, before its extension. */
  lemma {:induction false} StandardPart(tx: bytes, off: nat)
    requires Input(tx, off, true).Ok?
    ensures Input(tx, off, false).Ok?
    ensures off + 41 <= Input(tx, off, false).value <= Input(tx, off, true).value <= |tx|
  {
    InputStands(tx, [], off, true);
    InputStands(tx, [], off, false);
    ScriptStands(tx, [], Input(tx, off, false).value + 8);
  }

  /** The standard parts of `count` Extended Format inputs from `off`. */
  function Kept(tx: bytes, off: nat, count: nat): bytes
    requires off <= |tx| && Inputs(tx, off, count, true).Ok?
    decreases count
  {
    if count == 0 then []
    else
      StandardPart(tx, off);
      tx[off..Input(tx, off, false).value] + Kept(tx, Input(tx, off, true).value, count - 1)
  }

  /** The standard serialization of the whole Extended Format transaction `tx`. */
  function Stripped(tx: bytes): bytes
    requires |tx| >= 10 && TxBody(tx, 10, true).Ok?
  {
    var (count, w) := VarInt(tx, 10).value;
    VarIntStands(tx, [], 10);
    InputsStand(tx, [], 10 + w, count, true);
    tx[..4] + tx[10..10 + w] + Kept(tx, 10 + w, count) + tx[Inputs(tx, 10 + w, count, true).value..]
  }

  function ToStandard(buf: bytes): Res<bytes> {
    var n :- TxSize(buf);
    TxSizeCut(buf);
    var tx := buf[..n];
    if IsEF(tx) then Ok(Stripped(tx)) else Ok(tx)
  }

  /** The transaction id; `sha` stands for SHA-256. */
  function TxID(buf: bytes, sha: bytes -> Hash32): Res<Hash32> {
    var std :- ToStandard(buf);
    Ok(sha(sha(std)))
  }

  /** Cut to the size found, a transaction is accepted whole. */
  lemma {:induction false} TxSizeCut(buf: bytes)
    requires TxSize(buf).Ok?
    ensures 10 <= TxSize(buf).value <= |buf| && TxSize(buf[..TxSize(buf).value]) == TxSize(buf)
    ensures IsEF(buf[..TxSize(buf).value]) == IsEF(buf)
  {
    hide TxSize;
    var n := TxSize(buf).value;
    TxSizeStands(buf, []);
    assert buf + [] == buf;
    TxSizeStands(buf[..n], buf[n..]);
    assert buf[..n] + buf[n..] == buf;
    assert buf[..n][4..10] == buf[4..10];
  }

  // ---- the output is a whole standard transaction ---------------------------------------

  /** Kept inputs, moved left into any buffer, walk as standard inputs. */
  lemma {:induction false} KeptWalks(tx: bytes, off: nat, count: nat, b: bytes, j: nat)
    requires off <= |tx| && Inputs(tx, off, count, true).Ok?
    requires j <= off && j + |Kept(tx, off, count)| <= |b|
    requires b[j..j + |Kept(tx, off, count)|] == Kept(tx, off, count)
    ensures Inputs(b, j, count, false) == Ok(j + |Kept(tx, off, count)|)
    ensures j + |Kept(tx, off, count)| <= Inputs(tx, off, count, true).value
    decreases count
  {
    hide Input;
    if count > 0 {
      StandardPart(tx, off);
      var e := Input(tx, off, false).value;
      var next := Input(tx, off, true).value;
      var k := Kept(tx, off, count);
      var rest := Kept(tx, next, count - 1);
      assert k == tx[off..e] + rest;
      assert b[j..j + (e - off)] == k[..e - off] == tx[off..e];
      assert b[j + (e - off)..j + |k|] == k[e - off..] == rest;
      InputMoves(tx, off, b, j);
      KeptWalks(tx, next, count - 1, b, j + (e - off));
    }
  }

  /** The standard serialization of an Extended Format transaction is a standard transaction,
      accepted whole. */
  lemma {:induction false} StrippedIsWhole(tx: bytes)
    requires IsEF(tx) && TxSize(tx) == Ok(|tx|)
    ensures TxBody(tx, 10, true).Ok? && |Stripped(tx)| >= 10
    ensures TxSize(Stripped(tx)) == Ok(|Stripped(tx)|) && !IsEF(Stripped(tx))
  {
    hide Inputs, VarInt, TxTail;
    var (count, w) := VarInt(tx, 10).value;
    VarIntStands(tx, [], 10);
    InputsStand(tx, [], 10 + w, count, true);
    assert tx + [] == tx;
    var o := Inputs(tx, 10 + w, count, true).value;
    var k := Kept(tx, 10 + w, count);
    var out := Stripped(tx);
    FourParts(tx[..4], tx[10..10 + w], k, tx[o..], out);
    var j := 4 + w + |k|;
    TxTailStands(tx, [], o);
    assert Same(tx, o, out, j, |tx| - o);
    hide Kept, Stripped, TxBody, TxSize, IsEF;
    VarIntMoves(tx, 10, out, 4);
    FirstByte(tx, 10);
    assert out[4] == tx[10] by { assert out[4..4 + w][0] == tx[10..10 + w][0]; }
    KeptWalks(tx, 10 + w, count, out, 4 + w);
    TxTailMoves(tx, o, out, j);
    StandardSize(out, count, w, j);
  }

  lemma {:induction false} FourParts(a: bytes, b: bytes, k: bytes, t: bytes, s: bytes)
    requires s == a + b + k + t
    ensures s[..|a|] == a && s[|a|..|a| + |b|] == b && s[|a| + |b|..|a| + |b| + |k|] == k && s[|a| + |b| + |k|..] == t
  {
  }

  /** A count that is not zero does not start with a zero byte. */
  lemma {:induction false} FirstByte(tx: bytes, off: nat)
    requires VarInt(tx, off).Ok? && VarInt(tx, off).value.0 != 0
    ensures off < |tx| && tx[off] != 0
  {
  }

  lemma {:induction false} StandardSize(out: bytes, count: nat, w: nat, j: nat)
    requires |out| >= 5 && out[4] != 0 && VarInt(out, 4) == Ok((count, w)) && count != 0
    requires Inputs(out, 4 + w, count, false) == Ok(j) && TxTail(out, j) == Ok(|out|)
    ensures |out| >= 10 && TxSize(out) == Ok(|out|) && !IsEF(out)
  {
    hide Inputs, VarInt, TxTail;
    assert |out| >= 10 ==> out[4..10][0] == out[4];
    TxSizeStands(out, []);
    assert out + [] == out;
  }

  /** ToStandard's output parses as one whole standard transaction, and ToStandard leaves it
      alone. */
  lemma {:induction false} ToStandardIsStandard(buf: bytes)
    requires ToStandard(buf).Ok?
    ensures var out := ToStandard(buf).value;
      TxSize(out) == Ok(|out|) && !IsEF(out) && ToStandard(out) == Ok(out)
  {
    hide TxSize, Stripped;
    TxSizeCut(buf);
    var tx := buf[..TxSize(buf).value];
    if IsEF(tx) {
      StrippedIsWhole(tx);
    }
    var out := ToStandard(buf).value;
    assert out[..|out|] == out;
  }

  // ---- Extended Format erasure ----------------------------------------------------------

  /** What Extended Format adds to an input: 8 bytes of value and a locking script. */
  predicate IsExtra(x: bytes) {
    |x| >= 8 && VarInt(x, 8).Ok? && |x| == 8 + VarInt(x, 8).value.1 + VarInt(x, 8).value.0
  }

  /** The standard inputs of `std` from `off`, each followed by its extra. */
  function Weave(std: bytes, off: nat, extras: seq<bytes>): bytes
    requires off <= |std| && Inputs(std, off, |extras|, false).Ok?
    decreases |extras|
  {
    if extras == [] then []
    else
      InputStands(std, [], off, false);
      assert std + [] == std;
      var e := Input(std, off, false).value;
      std[off..e] + extras[0] + Weave(std, e, extras[1..])
  }

  predicate IsStandard(std: bytes) {
    TxSize(std) == Ok(|std|) && !IsEF(std) && VarInt(std, 4).Ok?
  }

  /** The Extended Format serialization of `std` with the given extras. */
  function ExtendedForm(std: bytes, extras: seq<bytes>): bytes
    requires IsStandard(std) && VarInt(std, 4).value.0 == |extras|
  {
    StandardWalk(std);
    var w := VarInt(std, 4).value.1;
    std[..4] + EF_MARKER + std[4..4 + w] + Weave(std, 4 + w, extras)
      + std[Inputs(std, 4 + w, |extras|, false).value..]
  }

  lemma {:induction false} StandardWalk(std: bytes)
    requires IsStandard(std)
    ensures var (count, w) := VarInt(std, 4).value;
      && 4 + w <= |std| && count > 0 && Inputs(std, 4 + w, count, false).Ok?
      && 4 + w <= Inputs(std, 4 + w, count, false).value <= |std|
      && TxTail(std, Inputs(std, 4 + w, count, false).value) == Ok(|std|)
  {
    var (count, w) := VarInt(std, 4).value;
    VarIntStands(std, [], 4);
    assert std + [] == std;
    InputsStand(std, [], 4 + w, count, false);
  }

  /** Past an input and its extra, wherever the walk accepts them. */
  lemma {:induction false} ExtendedInput(std: bytes, off: nat, x: bytes, b: bytes, j: nat)
    requires Input(std, off, false).Ok? && off <= Input(std, off, false).value <= |std| && IsExtra(x)
    requires var n := Input(std, off, false).value - off;
      && Same(std, off, b, j, n) && Same(x, 0, b, j + n, |x|)
    requires Input(b, j, true).Ok?
    ensures var n := Input(std, off, false).value - off;
      Input(b, j, false) == Ok(j + n) && Input(b, j, true) == Ok(j + n + |x|)
  {
    hide VarInt;
    StandardPart(b, j);
    InputMoves(std, off, b, j);
    var c := j + Input(std, off, false).value - off;
    var w := VarInt(x, 8).value.1;
    SameWithin(x, 0, b, c, |x|, 8, w);
    VarIntMoves(x, 8, b, c + 8);
  }

  lemma {:induction false} WeaveStrips(std: bytes, off: nat, extras: seq<bytes>, b: bytes, j: nat)
    requires off <= |std| && Inputs(std, off, |extras|, false).Ok?
      && (forall i :: 0 <= i < |extras| ==> IsExtra(extras[i]))
    requires j <= |b| && Inputs(b, j, |extras|, true).Ok?
    requires Same(Weave(std, off, extras), 0, b, j, |Weave(std, off, extras)|)
    ensures Inputs(b, j, |extras|, true) == Ok(j + |Weave(std, off, extras)|)
    ensures off <= Inputs(std, off, |extras|, false).value <= |std|
    ensures Kept(b, j, |extras|) == std[off..Inputs(std, off, |extras|, false).value]
    decreases |extras|
  {
    hide Input, IsExtra, VarInt, Inputs, Kept, Weave;
    if extras == [] {
      WeaveNone(std, off, b, j);
    } else {
      WeaveStep(std, off, extras);
      KeptStep(b, j, |extras|);
      var e, x := Input(std, off, false).value, extras[0];
      SameParts(std[off..e], x, Weave(std, e, extras[1..]), b, j);
      ExtendedInput(std, off, x, b, j);
      hide Same;
      WeaveStrips(std, e, extras[1..], b, j + (e - off) + |x|);
      Adjoin(std, off, e, Inputs(std, off, |extras|, false).value);
    }
  }

  lemma {:induction false} Adjoin(s: bytes, a: nat, b: nat, c: nat)
    requires a <= b <= c <= |s|
    ensures s[a..b] + s[b..c] == s[a..c]
  {
  }

  lemma {:induction false} WeaveNone(std: bytes, off: nat, b: bytes, j: nat)
    requires off <= |std| && j <= |b|
    ensures Inputs(std, off, 0, false) == Ok(off) && Inputs(b, j, 0, true) == Ok(j)
    ensures Weave(std, off, []) == [] && Kept(b, j, 0) == []
  {
  }

  lemma {:induction false} WeaveStep(std: bytes, off: nat, extras: seq<bytes>)
    requires off <= |std| && extras != [] && Inputs(std, off, |extras|, false).Ok?
    ensures Input(std, off, false).Ok? && off <= Input(std, off, false).value <= |std|
    ensures var e := Input(std, off, false).value;
      && Inputs(std, off, |extras|, false) == Inputs(std, e, |extras| - 1, false)
      && Weave(std, off, extras) == std[off..e] + extras[0] + Weave(std, e, extras[1..])
  {
    hide Input;
    InputStands(std, [], off, false);
    assert std + [] == std;
  }

  lemma {:induction false} KeptStep(b: bytes, j: nat, count: nat)
    requires j <= |b| && count > 0 && Inputs(b, j, count, true).Ok?
    ensures Input(b, j, false).Ok? && Input(b, j, true).Ok?
    ensures j <= Input(b, j, false).value <= Input(b, j, true).value <= |b|
    ensures var e := Input(b, j, true).value;
      && Inputs(b, j, count, true) == Inputs(b, e, count - 1, true)
      && Kept(b, j, count) == b[j..Input(b, j, false).value] + Kept(b, e, count - 1)
  {
    hide Input;
    StandardPart(b, j);
  }

  /** Extended Format is erased exactly: whatever extras a standard transaction is given, if
      TxSize accepts the result, ToStandard returns the standard bytes. */
  lemma {:induction false} Erasure(std: bytes, extras: seq<bytes>)
    requires IsStandard(std) && VarInt(std, 4).value.0 == |extras|
    requires forall i :: 0 <= i < |extras| ==> IsExtra(extras[i])
    requires TxSize(ExtendedForm(std, extras)).Ok?
    ensures ToStandard(ExtendedForm(std, extras)) == Ok(std)
  {
    hide Inputs, VarInt, TxTail, Weave, IsExtra, Kept;
    StandardWalk(std);
    var ef := ExtendedForm(std, extras);
    var count := |extras|;
    var w := VarInt(std, 4).value.1;
    var o := Inputs(std, 4 + w, count, false).value;
    var wv := Weave(std, 4 + w, extras);
    VarIntStands(std, [], 4);
    assert std + [] == std;
    FourParts(std[..4] + EF_MARKER, std[4..4 + w], wv, std[o..], ef);
    MarkedFront(std, ef);
    VarIntMoves(std, 4, ef, 10);
    assert Inputs(ef, 10 + w, count, true).Ok?;
    assert wv[0..|wv|] == wv;
    WeaveStrips(std, 4 + w, extras, ef, 10 + w);
    var q := 10 + w + |wv|;
    assert Same(std, o, ef, q, |std| - o);
    TxTailMoves(std, o, ef, q);
    assert ef[..|ef|] == ef;
    assert TxSize(ef) == Ok(|ef|);
    assert Stripped(ef) == std[..4] + std[4..4 + w] + std[4 + w..o] + std[o..];
    Rejoined(std, w, o);
  }

  lemma {:induction false} MarkedFront(std: bytes, ef: bytes)
    requires |std| >= 4 && |ef| >= 10 && ef[..10] == std[..4] + EF_MARKER
    ensures ef[..4] == std[..4] && ef[4..10] == EF_MARKER && IsEF(ef)
  {
    assert ef[..10][..4] == std[..4] && ef[..10][4..] == EF_MARKER;
  }

  lemma {:induction false} Rejoined(s: bytes, w: nat, o: nat)
    requires 4 + w <= o <= |s|
    ensures s[..4] + s[4..4 + w] + s[4 + w..o] + s[o..] == s
  {
  }
}
