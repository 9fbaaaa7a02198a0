/** Reader cuts one class of objects out of a byte stream that arrives in arbitrary pieces. */
module StreamReader {
  import opened Bytes
  import opened ObjSize

  const MIN_READ := 4096
  const FIRST_BUFFER := 0x1_0000
  const DEFAULT_MAX_OBJECT := 0x400_0000

  /** Panicked: a bound below -4096 makes the reader ask for a buffer of negative length. Stalled: the
      bound -4096 leaves an empty buffer, and Next repeats an empty read until the source fails. */
  datatype Outcome =
    | Object(obj: bytes) | EndOfStream | Truncated | TooLarge | Corrupt | NoCodec | SourceFailed | Panicked | Stalled

  /** What one call of Next may answer on the unread stream `s`, and the stream it leaves. */
  predicate NextAnswers(c: Class, max: int, s: bytes, out: Outcome, rest: bytes) {
    match out
    case Object(o) => Size(c, s) == Ok(|o|) && |o| <= |s| && s == o + rest
    case EndOfStream => s == [] && rest == []
    case Truncated => s != [] && Size(c, s) == Short && rest == s
    case TooLarge => rest == s && exists k :: max <= k <= |s| && k > 0 && Size(c, s[..k]) == Short
    case Corrupt => Size(c, s) == Malformed && rest == s
    case NoCodec => s != [] && c == ClassUnknown && rest == s
    case SourceFailed => rest == s
    case Panicked => rest == s && max < -MIN_READ
    case Stalled => rest == s && s != [] && max == -MIN_READ
  }

  /** A call that made reads `before` to `after` - 1 reports a source failure exactly when the last
      of them failed, and made no read after one that failed. */
  predicate ReportsFailure(fails: nat -> bool, before: nat, after: nat, out: Outcome) {
    && before <= after
    && (out == SourceFailed <==> before < after && fails(after - 1))
    && forall k: nat :: before <= k < after - 1 ==> !fails(k)
  }

  datatype ReadErr = NoErr | Eof | Failure

  function Min(a: nat, b: nat): nat {
    if a < b then a else b
  }

  /** The length the reader doubles its buffer to, within the bound. */
  function Grown(len: nat, max: int): int {
    var size := if len == 0 then FIRST_BUFFER else 2 * len;
    if size > max + MIN_READ then max + MIN_READ else size
  }

  /** An io.Reader over `rest`. Read number k delivers up to `want(k)` + 1 bytes, and fails when
      `fails(k)` says so; it may report EOF along with the last bytes. A read that is offered room
      and reports no error makes progress. */
  class Source {
    var rest: bytes
    var calls: nat
    const want: nat -> nat
    const eager: bool
    const fails: nat -> bool
    ghost var offered: seq<nat>

    constructor (stream: bytes, want: nat -> nat, eager: bool, fails: nat -> bool)
      ensures rest == stream && calls == 0 && offered == [] && this.fails == fails
    {
      rest, calls := stream, 0;
      this.want, this.eager, this.fails := want, eager, fails;
      offered := [];
    }

    method Read(p: array<byte>, at: nat) returns (n: nat, err: ReadErr)
      requires at <= p.Length
      modifies this, p
      ensures at + n <= p.Length && n <= |old(rest)|
      ensures p[..at] == old(p[..at]) && p[at..at + n] == old(rest)[..n] && rest == old(rest)[n..]
      ensures err == NoErr ==> old(rest) != [] && (n > 0 || at == p.Length)
      ensures err == Eof ==> rest == []
      ensures calls == old(calls) + 1 && (err == Failure <==> fails(old(calls)))
      ensures offered == old(offered) + [p.Length - at]
    {
      n := Min(Min(p.Length - at, |rest|), want(calls) + 1);
      for i := 0 to n
        invariant unchanged(this) && p[..at] == old(p[..at]) && p[at..at + i] == rest[..i]
      {
        p[at + i] := rest[i];
        assert p[at..at + i + 1] == p[at..at + i] + [rest[i]];
      }
      err := if fails(calls) then Failure else if |rest| == 0 || (n == |rest| && eager) then Eof else NoErr;
      rest := rest[n..];
      calls := calls + 1;
      offered := offered + [p.Length - at];
    }
  }

  class Reader {
    const src: Source
    const c: Class
    var max: int
    var buf: array<byte>
    var start: nat
    var end: nat
    ghost var least: int
    ghost var most: int

    /** The buffer stays within the largest bound ever set plus one read. Unless a negative bound
        was ever set, every read so far was offered at least MIN_READ bytes. */
    ghost predicate Valid()
      reads this, src
    {
      && start <= end <= buf.Length
      && least <= max <= most
      && buf.Length <= most + MIN_READ
      && (least >= 0 ==> (buf.Length == 0 || buf.Length >= MIN_READ) && forall x :: x in src.offered ==> x >= MIN_READ)
    }

    ghost function Stream(): bytes
      reads this, src, buf
      requires Valid()
    {
      buf[start..end] + src.rest
    }

    /** Nothing is pending and the buffer must be replaced, by one of at most no bytes. */
    ghost predicate NoRoom()
      reads this
    {
      max <= -MIN_READ && start == end && buf.Length < MIN_READ
    }

    constructor (src: Source, c: Class)
      requires src.offered == []
      ensures Valid() && Stream() == src.rest && fresh(buf) && this.src == src && this.c == c
      ensures max == least == most == DEFAULT_MAX_OBJECT
    {
      this.src, this.c := src, c;
      max, least, most := DEFAULT_MAX_OBJECT, DEFAULT_MAX_OBJECT, DEFAULT_MAX_OBJECT;
      buf := new byte[0];
      start, end := 0, 0;
    }

    method SetMaxObject(n: int)
      requires Valid()
      modifies `max, `least, `most
      ensures Valid() && max == n && Stream() == old(Stream())
      ensures least == (if n < old(least) then n else old(least)) && most == (if n > old(most) then n else old(most))
    {
      max := n;
      least := if n < least then n else least;
      most := if n > most then n else most;
    }

    /** Moves the pending window to the front of the buffer. */
    method ToFront()
      requires Valid()
      modifies `start, `end, buf
      ensures Valid() && start == 0 && end == old(end - start)
      ensures buf[..end] == old(buf[start..end])
    {
      var n := end - start;
      ghost var was := buf[..];
      for i := 0 to n
        invariant start == old(start) && end == old(end)
        invariant buf[..i] == was[start..start + i]
        invariant buf[start + i..] == was[start + i..]
      {
        assert buf[start + i] == was[start + i];
        buf[i] := buf[start + i];
      }
      start, end := 0, n;
    }

    /** Doubles the buffer, within the bound. */
    method Grow()
      requires Valid() && start == 0 && buf.Length - end < MIN_READ && (end == 0 || end < max) && max >= -MIN_READ
      modifies `buf
      ensures Valid() && fresh(buf) && buf[..end] == old(buf[..end])
      ensures buf.Length == Grown(old(buf.Length), max) >= end && (buf.Length == end <==> max == -MIN_READ)
      ensures least >= 0 ==> buf.Length - end >= MIN_READ
    {
      var size := if buf.Length == 0 then FIRST_BUFFER else 2 * buf.Length;
      if size > max + MIN_READ {
        size := max + MIN_READ;
      }
      var nb := new byte[size];
      for i := 0 to end
        invariant unchanged(this) && unchanged(buf)
        invariant nb[..i] == buf[..i]
      {
        nb[i] := buf[i];
      }
      buf := nb;
    }

    /** Leaves the pending window at the front with at least MIN_READ bytes free behind it; with at
        least one when a negative bound was ever set; with none only in an empty buffer at the bound
        -MIN_READ. Fails exactly where the source would panic. */
    method MakeRoom() returns (ok: bool)
      requires Valid() && (start == end || end - start < max)
      modifies `start, `end, `buf, buf
      ensures Valid() && (buf == old(buf) || fresh(buf))
      ensures start == 0 && end == old(end - start) && buf[..end] == old(buf[start..end])
      ensures !ok <==> max < -MIN_READ && old(buf.Length - (end - start)) < MIN_READ
      ensures ok && old(buf.Length - (end - start)) < MIN_READ ==> buf.Length == Grown(old(buf.Length), max)
      ensures !ok || old(buf.Length - (end - start)) >= MIN_READ ==> buf == old(buf)
      ensures ok ==> buf.Length > end || (buf.Length == 0 && max == -MIN_READ)
      ensures ok && least >= 0 ==> buf.Length - end >= MIN_READ
    {
      if start > 0 {
        ToFront();
      }
      ok := true;
      if buf.Length - end < MIN_READ {
        if max < -MIN_READ {
          return false;
        }
        Grow();
      }
    }

    /** Reads once into the free part of the buffer, keeping the unread stream. */
    method ReadMore() returns (err: ReadErr)
      requires Valid() && (least >= 0 ==> buf.Length - end >= MIN_READ)
      modifies `end, buf, src
      ensures Valid() && Stream() == old(Stream()) && |src.rest| <= |old(src.rest)|
      ensures err == NoErr ==> old(src.rest) != [] && (|src.rest| < |old(src.rest)| || old(end) == buf.Length)
      ensures err == Eof ==> src.rest == []
      ensures src.calls == old(src.calls) + 1 && (err == Failure <==> src.fails(old(src.calls)))
      ensures end - start == old(end - start) + |old(src.rest)| - |src.rest|
    {
      ghost var was := src.rest;
      var n;
      n, err := src.Read(buf, end);
      end := end + n;
      assert buf[start..end] == old(buf[start..end]) + was[..n] by {
        Extends(old(buf[..end]), buf[..end], start, was[..n]);
      }
      assert old(buf[start..end]) + was == (old(buf[start..end]) + was[..n]) + was[n..];
    }

    /** Makes room and reads once. */
    method Fill() returns (ok: bool, err: ReadErr)
      requires Valid() && (start == end || end - start < max)
      modifies `start, `end, `buf, buf, src
      ensures Valid() && (buf == old(buf) || fresh(buf))
      ensures Stream() == old(Stream()) && |src.rest| <= |old(src.rest)|
      ensures !ok <==> max < -MIN_READ && old(buf.Length - (end - start)) < MIN_READ
      ensures !ok ==> src.calls == old(src.calls)
      ensures ok ==> src.calls == old(src.calls) + 1 && (err == Failure <==> src.fails(old(src.calls)))
      ensures ok && err == NoErr ==>
        old(src.rest) != [] && (|src.rest| < |old(src.rest)| || (buf.Length == 0 && max == -MIN_READ))
      ensures ok && err == Eof ==> src.rest == []
      ensures old(NoRoom()) && ok ==> buf.Length == 0
      ensures max <= -MIN_READ && !old(NoRoom()) ==> buf == old(buf)
      ensures end - start == old(end - start) + |old(src.rest)| - |src.rest|
    {
      err := NoErr;
      ok := MakeRoom();
      assert buf[start..end] == old(buf[start..end]);
      if ok {
        err := ReadMore();
      }
    }

    /** Tries to cut an object from the pending window; None asks for more bytes. */
    method Cut() returns (r: Option<Outcome>)
      requires Valid()
      modifies `start
      ensures Valid()
      ensures r.Some? ==> NextAnswers(c, max, old(Stream()), r.value, Stream())
      ensures r.Some? ==> old(start < end)
      ensures r.Some? ==> r.value.Object? || r.value.TooLarge? || r.value.Corrupt? || r.value.NoCodec?
      ensures r.None? ==>
        start == old(start) && (start == end || (end - start < max && Size(c, buf[start..end]) == Short))
    {
      hide Size;
      if end == start {
        return None;
      }
      var window := buf[start..end];
      var size := Size(c, window);
      Decided(c, window, src.rest);
      ghost var s := Stream();
      match size {
        case Ok(n) =>
          start := start + n;
          assert s == window[..n] + Stream();
          return Some(Object(window[..n]));
        case Short =>
          assert s[..|window|] == window;
          return if |window| >= max then Some(TooLarge) else None;
        case Malformed => return Some(Corrupt);
        case NotRegistered => return Some(NoCodec);
      }
    }

    /** The answer at the end of the stream; None when the window holds a whole object to cut. */
    method AtEnd() returns (r: Option<Outcome>)
      requires Valid() && src.rest == []
      ensures r.Some? ==> NextAnswers(c, max, Stream(), r.value, Stream())
      ensures r.Some? ==>
        if start == end then r.value == EndOfStream else r.value.Truncated? || r.value.Corrupt? || r.value.NoCodec?
      ensures r.None? ==> start < end && Size(c, buf[start..end]).Ok?
    {
      hide Size;
      if end == start {
        return Some(EndOfStream);
      }
      var window := buf[start..end];
      assert window == Stream();
      Decided(c, window, []);
      match Size(c, window) {
        case Ok(_) => return None;
        case Short => return Some(Truncated);
        case Malformed => return Some(Corrupt);
        case NotRegistered => return Some(NoCodec);
      }
    }

    /** Reads once for an undecided window; None asks for another cut. */
    method More() returns (r: Option<Outcome>)
      requires Valid() && (start == end || (end - start < max && Size(c, buf[start..end]) == Short))
      modifies `start, `end, `buf, buf, src
      ensures Valid() && (buf == old(buf) || fresh(buf)) && Stream() == old(Stream())
      ensures r.Some? ==> NextAnswers(c, max, Stream(), r.value, Stream())
      ensures r.None? ==> |src.rest| < |old(src.rest)| && src.calls == old(src.calls) + 1
      ensures old(src.calls) <= src.calls <= old(src.calls) + 1
      ensures r == Some(SourceFailed) <==> src.calls > old(src.calls) && src.fails(old(src.calls))
      ensures r == Some(Panicked) || r == Some(Stalled) ==> old(NoRoom())
      ensures old(NoRoom()) ==>
        r == Some(if max < -MIN_READ then Panicked
                  else if src.fails(old(src.calls)) then SourceFailed
                  else if Stream() == [] then EndOfStream
                  else Stalled)
      ensures r.None? ==> !NoRoom()
    {
      hide Size;
      ghost var pending, left := buf[start..end], src.rest;
      var ok, err := Fill();
      if !ok {
        return Some(Panicked);
      }
      match err {
        case Eof =>
          r := AtEnd();
          assert Stream() == buf[start..end];
          assert left == [] ==> pending + left == pending;
        case Failure => return Some(SourceFailed);
        case NoErr => return if buf.Length == 0 then Some(Stalled) else None;
      }
    }

    /** Returns the next whole object, or says why there is none. */
    method Next() returns (out: Outcome)
      requires Valid()
      modifies `start, `end, `buf, buf, src
      ensures Valid() && (buf == old(buf) || fresh(buf))
      ensures NextAnswers(c, max, old(Stream()), out, Stream())
      ensures ReportsFailure(src.fails, old(src.calls), src.calls, out)
      ensures out.Panicked? || out.Stalled? ==> old(NoRoom())
      ensures old(NoRoom()) && max < -MIN_READ ==> out == Panicked
      ensures old(NoRoom()) && max == -MIN_READ ==>
        out == if src.fails(old(src.calls)) then SourceFailed else if old(Stream()) == [] then EndOfStream else Stalled
    {
      hide Size, NextAnswers;
      while true
        invariant Valid() && (buf == old(buf) || fresh(buf)) && Stream() == old(Stream())
        invariant old(src.calls) <= src.calls && forall k: nat :: old(src.calls) <= k < src.calls ==> !src.fails(k)
        invariant NoRoom() <==> old(NoRoom())
        invariant NoRoom() ==> src.calls == old(src.calls)
        decreases |src.rest|
      {
        var r := Cut();
        if r.Some? {
          return r.value;
        }
        r := More();
        if r.Some? {
          return r.value;
        }
      }
    }
  }

  lemma {:induction false} Extends(a: bytes, b: bytes, start: nat, more: bytes)
    requires start <= |a| && b == a + more
    ensures b[start..] == a[start..] + more
  {
  }

  /** What a window decides, the whole stream decides alike. */
  lemma {:induction false} Decided(c: Class, window: bytes, rest: bytes)
    ensures Size(c, window).Ok? ==> 1 <= Size(c, window).value <= |window| && Size(c, window + rest) == Size(c, window)
    ensures Size(c, window).Malformed? ==> Size(c, window + rest).Malformed?
    ensures Size(c, window).NotRegistered? <==> c == ClassUnknown
  {
    hide Size;
    Registered(c, window);
    if Size(c, window).Ok? {
      SizeIgnoresSuffix(c, window, rest);
    } else if Size(c, window).Malformed? {
      MalformedIsFinal(c, window, rest);
    }
  }

  // ---- runs of Next ---------------------------------------------------------------------

  /** A whole object of class `c` within the reader's bound. */
  predicate Whole(c: Class, max: nat, o: bytes) {
    Size(c, o) == Ok(|o|) && |o| <= max
  }

  function Flatten(objs: seq<bytes>): bytes {
    if objs == [] then [] else objs[0] + Flatten(objs[1..])
  }

  /** Calls of Next in a row: call i answered `outs[i]` on the stream `streams[i]` and left
      `streams[i + 1]`, making the source's reads from `counts[i]` up to `counts[i + 1]`. */
  predicate Calls(c: Class, max: nat, fails: nat -> bool, streams: seq<bytes>, counts: seq<nat>, outs: seq<Outcome>) {
    && |streams| == |counts| == |outs| + 1
    && (forall i :: 0 <= i < |outs| ==> NextAnswers(c, max, streams[i], outs[i], streams[i + 1]))
    && (forall i :: 0 <= i < |outs| ==> ReportsFailure(fails, counts[i], counts[i + 1], outs[i]))
  }

  /** The stream ends cleanly, or inside an object. */
  ghost predicate Tail(c: Class, max: nat, tail: bytes) {
    tail == [] || exists more :: more != [] && Whole(c, max, tail + more)
  }

  /** The answer due after `n` answers: the objects in order, then how the stream ends. */
  function Due(objs: seq<bytes>, tail: bytes, n: nat): Outcome {
    if n < |objs| then Object(objs[n]) else if tail == [] then EndOfStream else Truncated
  }

  /** How many calls were not cut short by a failing read. */
  function Answered(outs: seq<Outcome>): nat {
    if outs == [] then 0 else (if outs[0] == SourceFailed then 0 else 1) + Answered(outs[1..])
  }

  lemma {:induction false} WholeIsNext(c: Class, max: nat, o: bytes, s: bytes, out: Outcome, rest: bytes)
    requires Whole(c, max, o) && NextAnswers(c, max, o + s, out, rest) && out != SourceFailed
    ensures out == Object(o) && rest == s
  {
    hide Size;
    SizeIgnoresSuffix(c, o, s);
    Registered(c, o);
    if out.TooLarge? {
      var k :| max <= k <= |o + s| && k > 0 && Size(c, (o + s)[..k]) == Short;
      assert (o + s)[..k] == o + s[..k - |o|];
      SizeIgnoresSuffix(c, o, s[..k - |o|]);
    } else if out.Object? {
      assert out.obj == (out.obj + rest)[..|o|] == (o + s)[..|o|] == o;
      assert rest == (out.obj + rest)[|o|..] == (o + s)[|o|..] == s;
    }
  }

  lemma {:induction false} TailIsLast(c: Class, max: nat, tail: bytes, out: Outcome, rest: bytes)
    requires Tail(c, max, tail) && NextAnswers(c, max, tail, out, rest) && out != SourceFailed
    ensures out == (if tail == [] then EndOfStream else Truncated) && rest == tail
  {
    hide Size;
    if tail == [] {
      if out.Object? || out.Corrupt? {
        EmptyIsShort(c);
      }
    } else {
      var more :| more != [] && Whole(c, max, tail + more);
      StrictPrefixIsShort(c, tail + more, |tail|);
      assert (tail + more)[..|tail|] == tail;
      Registered(c, tail);
    }
  }

  lemma {:induction false} EmptyIsShort(c: Class)
    ensures !Size(c, []).Ok? && !Size(c, []).Malformed?
  {
  }

  /** What is left of the objects after an answer. */
  function Left(objs: seq<bytes>, out: Outcome): seq<bytes> {
    if out == SourceFailed || objs == [] then objs else objs[1..]
  }

  lemma {:induction false} OneAnswer(c: Class, max: nat, objs: seq<bytes>, tail: bytes, s: bytes, out: Outcome,
                                     rest: bytes)
    requires (forall i :: 0 <= i < |objs| ==> Whole(c, max, objs[i])) && Tail(c, max, tail)
    requires s == Flatten(objs) + tail && NextAnswers(c, max, s, out, rest)
    ensures (out == SourceFailed || out == Due(objs, tail, 0)) && rest == Flatten(Left(objs, out)) + tail
  {
    hide Whole, Tail;
    if out != SourceFailed {
      if objs == [] {
        assert s == tail;
        TailIsLast(c, max, tail, out, rest);
      } else {
        assert s == objs[0] + (Flatten(objs[1..]) + tail);
        WholeIsNext(c, max, objs[0], Flatten(objs[1..]) + tail, out, rest);
      }
    }
  }

  lemma {:induction false} CallsTail(c: Class, max: nat, fails: nat -> bool, streams: seq<bytes>, counts: seq<nat>,
                                     outs: seq<Outcome>)
    requires Calls(c, max, fails, streams, counts, outs) && outs != []
    ensures NextAnswers(c, max, streams[0], outs[0], streams[1])
    ensures Calls(c, max, fails, streams[1..], counts[1..], outs[1..])
  {
    hide NextAnswers, ReportsFailure;
  }

  lemma {:induction false} NoCalls(c: Class, max: nat, fails: nat -> bool, s: bytes, n: nat)
    ensures Calls(c, max, fails, [s], [n], [])
  {
  }

  lemma {:induction false} CallsMore(c: Class, max: nat, fails: nat -> bool, streams: seq<bytes>, counts: seq<nat>,
                                     outs: seq<Outcome>, out: Outcome, s: bytes, n: nat)
    requires Calls(c, max, fails, streams, counts, outs)
    requires NextAnswers(c, max, streams[|outs|], out, s) && ReportsFailure(fails, counts[|outs|], n, out)
    ensures Calls(c, max, fails, streams + [s], counts + [n], outs + [out])
  {
    hide NextAnswers, ReportsFailure;
  }

  /** However the source delivers a concatenation of whole objects and a tail, and whichever of its
      reads fail, a call reports a failure or the answer due next: a failing read loses nothing. */
  lemma {:induction false} FailuresLoseNothing(c: Class, max: nat, objs: seq<bytes>, tail: bytes, fails: nat -> bool,
                                               streams: seq<bytes>, counts: seq<nat>, outs: seq<Outcome>)
    requires (forall i :: 0 <= i < |objs| ==> Whole(c, max, objs[i])) && Tail(c, max, tail)
    requires Calls(c, max, fails, streams, counts, outs) && streams[0] == Flatten(objs) + tail
    ensures forall i :: 0 <= i < |outs| ==>
      outs[i] == SourceFailed || outs[i] == Due(objs, tail, Answered(outs[..i]))
    decreases |outs|
  {
    hide Whole, Tail, ReportsFailure, NextAnswers, Flatten;
    if outs != [] {
      CallsTail(c, max, fails, streams, counts, outs);
      OneAnswer(c, max, objs, tail, streams[0], outs[0], streams[1]);
      FailuresLoseNothing(c, max, Left(objs, outs[0]), tail, fails, streams[1..], counts[1..], outs[1..]);
      forall i | 1 <= i < |outs|
        ensures outs[i] == SourceFailed || outs[i] == Due(objs, tail, Answered(outs[..i]))
      {
        assert outs[i] == outs[1..][i - 1];
        assert outs[..i][1..] == outs[1..][..i - 1];
      }
    }
  }

  lemma {:induction false} AllAnswered(outs: seq<Outcome>)
    requires SourceFailed !in outs
    ensures Answered(outs) == |outs|
  {
    if outs != [] {
      AllAnswered(outs[1..]);
    }
  }

  /** Chunking does not matter: on a concatenation of whole objects and a tail, however a source
      that never fails delivers it, Next returns exactly those objects in order, then reports the
      end of the stream, or truncation when the tail is not empty, from then on. */
  lemma {:induction false} ChunkingIndependence(c: Class, max: nat, objs: seq<bytes>, tail: bytes, fails: nat -> bool,
                                                streams: seq<bytes>, counts: seq<nat>, outs: seq<Outcome>)
    requires (forall i :: 0 <= i < |objs| ==> Whole(c, max, objs[i])) && Tail(c, max, tail)
    requires Calls(c, max, fails, streams, counts, outs) && streams[0] == Flatten(objs) + tail
    requires forall k :: !fails(k)
    ensures forall i :: 0 <= i < |outs| ==> outs[i] == Due(objs, tail, i)
  {
    FailuresLoseNothing(c, max, objs, tail, fails, streams, counts, outs);
    hide NextAnswers, Whole, Tail;
    forall i | 0 <= i < |outs| ensures outs[i] != SourceFailed {
      assert ReportsFailure(fails, counts[i], counts[i + 1], outs[i]);
    }
    forall i | 0 <= i < |outs| ensures outs[i] == Due(objs, tail, i) {
      AllAnswered(outs[..i]);
    }
  }

  /** Opens a reader on a source and calls Next `n` times. */
  method ReadStream(c: Class, max: nat, stream: bytes, want: nat -> nat, eager: bool, fails: nat -> bool, n: nat,
                    ghost objs: seq<bytes>, ghost tail: bytes) returns (outs: seq<Outcome>)
    requires (forall i :: 0 <= i < |objs| ==> Whole(c, max, objs[i])) && Tail(c, max, tail)
    requires stream == Flatten(objs) + tail
    ensures |outs| == n
    ensures forall i :: 0 <= i < n ==> outs[i] == SourceFailed || outs[i] == Due(objs, tail, Answered(outs[..i]))
    ensures (forall k :: !fails(k)) ==> forall i :: 0 <= i < n ==> outs[i] == Due(objs, tail, i)
  {
    hide NextAnswers, Whole, Tail, ReportsFailure, Calls, Flatten, Answered;
    var src := new Source(stream, want, eager, fails);
    var rd := new Reader(src, c);
    rd.SetMaxObject(max);
    outs := [];
    ghost var streams, counts := [rd.Stream()], [src.calls];
    NoCalls(c, max, fails, stream, src.calls);
    for i := 0 to n
      invariant rd.Valid() && rd.max == max && fresh(rd) && fresh(rd.buf) && fresh(rd.src) && |outs| == i
      invariant |streams| == |counts| == i + 1 && streams[0] == stream
      invariant Calls(c, max, fails, streams, counts, outs)
      invariant streams[i] == rd.Stream() && counts[i] == src.calls
    {
      var out := rd.Next();
      CallsMore(c, max, fails, streams, counts, outs, out, rd.Stream(), src.calls);
      outs, streams, counts := outs + [out], streams + [rd.Stream()], counts + [src.calls];
    }
    FailuresLoseNothing(c, max, objs, tail, fails, streams, counts, outs);
    if forall k :: !fails(k) {
      ChunkingIndependence(c, max, objs, tail, fails, streams, counts, outs);
    }
  }
}
