/** Prefixing the lines of a log that arrives in arbitrary pieces. */
module LogLines {
  import opened DataFrames

  const NEWLINE: Byte := 10
  const MAX_LINE: nat := 64 * 1024

  /** The position of the first newline, or the length if there is none. */
  function Break(s: Bytes): (k: nat)
    ensures k <= |s|
  {
    if s == [] || s[0] == NEWLINE then 0 else 1 + Break(s[1..])
  }

  lemma {:induction false} BreakIsFirst(s: Bytes)
    ensures Break(s) < |s| ==> s[Break(s)] == NEWLINE
    ensures NEWLINE !in s[..Break(s)] && (Break(s) == |s| ==> NEWLINE !in s)
  {
    if s != [] && s[0] != NEWLINE {
      BreakIsFirst(s[1..]);
      assert s[..Break(s)] == [s[0]] + s[1..][..Break(s) - 1];
      assert s == [s[0]] + s[1..];
    }
  }

  /** The newline-terminated lines, each after the prefix. */
  function Lines(prefix: Bytes, s: Bytes): Bytes
    decreases |s|
  {
    var k := Break(s);
    if k == |s| then [] else prefix + s[..k + 1] + Lines(prefix, s[k + 1..])
  }

  /** What follows the last newline. */
  function Tail(s: Bytes): Bytes
    decreases |s|
  {
    var k := Break(s);
    if k == |s| then s else Tail(s[k + 1..])
  }

  /** Full-size pieces of an unterminated line are printed as lines of their own. */
  function Pieces(prefix: Bytes, t: Bytes): Bytes {
    if |t| < MAX_LINE then [] else prefix + t[..MAX_LINE] + [NEWLINE] + Pieces(prefix, t[MAX_LINE..])
  }

  function Rest(t: Bytes): Bytes {
    if |t| < MAX_LINE then t else Rest(t[MAX_LINE..])
  }

  function Printed(prefix: Bytes, s: Bytes): Bytes { Lines(prefix, s) + Pieces(prefix, Tail(s)) }

  function Left(s: Bytes): Bytes { Rest(Tail(s)) }

  /** Every newline-terminated line is shorter than the limit. */
  predicate ShortLines(s: Bytes)
    decreases |s|
  {
    var k := Break(s);
    k == |s| || (k < MAX_LINE && ShortLines(s[k + 1..]))
  }

  /** A terminated line of this length is cut in the same places however it arrives. */
  predicate EvenLength(k: nat) { k < MAX_LINE || k % MAX_LINE == MAX_LINE - 1 }

  predicate EvenLines(s: Bytes)
    decreases |s|
  {
    var k := Break(s);
    k == |s| || (EvenLength(k) && EvenLines(s[k + 1..]))
  }

  /** Every line cut into full-size pieces from its start, terminated or not. */
  function Cut(prefix: Bytes, s: Bytes): Bytes
    decreases |s|
  {
    var k := Break(s);
    if k == |s| then Pieces(prefix, s)
    else Pieces(prefix, s[..k]) + (prefix + Rest(s[..k]) + [NEWLINE]) + Cut(prefix, s[k + 1..])
  }

  // ----- the writer -----

  lemma {:induction false} Reassociate(a: Bytes, b: Bytes, c: Bytes)
    ensures a + (b + c) == a + b + c
  {
  }

  method PrintLines(prefix: Bytes, buffer: Bytes) returns (output: Bytes, rest: Bytes)
    ensures output == Lines(prefix, buffer) && rest == Tail(buffer)
  {
    output, rest := [], buffer;
    var newline := Break(rest);
    while newline < |rest|
      invariant newline == Break(rest) && Tail(rest) == Tail(buffer)
      invariant output + Lines(prefix, rest) == Lines(prefix, buffer)
      decreases |rest|
    {
      var line, after := prefix + rest[..newline + 1], rest[newline + 1..];
      Reassociate(output, line, Lines(prefix, after));
      output, rest := output + line, after;
      newline := Break(rest);
    }
  }

  method PrintPieces(prefix: Bytes, buffer: Bytes) returns (output: Bytes, rest: Bytes)
    ensures output == Pieces(prefix, buffer) && rest == Rest(buffer)
  {
    output, rest := [], buffer;
    while |rest| >= MAX_LINE
      invariant Rest(rest) == Rest(buffer)
      invariant output + Pieces(prefix, rest) == Pieces(prefix, buffer)
      decreases |rest|
    {
      var piece, after := prefix + rest[..MAX_LINE] + [NEWLINE], rest[MAX_LINE..];
      Reassociate(output, piece, Pieces(prefix, after));
      output, rest := output + piece, after;
    }
  }

  /** Appends one payload and prints what it completes; the kept part is short and free of newlines. */
  method WritePrefixed(prefix: Bytes, buffer: Bytes, payload: Bytes) returns (output: Bytes, rest: Bytes)
    ensures output == Printed(prefix, buffer + payload) && rest == Left(buffer + payload)
    ensures |rest| < MAX_LINE && NEWLINE !in rest
  {
    var lines, tail := PrintLines(prefix, buffer + payload);
    var pieces;
    pieces, rest := PrintPieces(prefix, tail);
    output := lines + pieces;
    LeftIsShort(buffer + payload);
  }

  lemma {:induction false} TailHasNoBreak(s: Bytes)
    ensures NEWLINE !in Tail(s)
    decreases |s|
  {
    var k := Break(s);
    BreakIsFirst(s);
    if k < |s| { TailHasNoBreak(s[k + 1..]); }
  }

  lemma {:induction false} RestIsShort(t: Bytes)
    ensures |Rest(t)| < MAX_LINE && (NEWLINE !in t ==> NEWLINE !in Rest(t))
  {
    if |t| >= MAX_LINE { RestIsShort(t[MAX_LINE..]); }
  }

  lemma {:induction false} LeftIsShort(s: Bytes)
    ensures |Left(s)| < MAX_LINE && NEWLINE !in Left(s)
  {
    TailHasNoBreak(s);
    RestIsShort(Tail(s));
  }

  // ----- fragmentation -----

  lemma {:induction false} BreakUnique(s: Bytes, k: nat)
    requires k <= |s| && NEWLINE !in s[..k] && (k < |s| ==> s[k] == NEWLINE)
    ensures Break(s) == k
  {
    BreakIsFirst(s);
    assert forall i :: 0 <= i < k ==> s[..k][i] == s[i];
    assert forall i :: 0 <= i < Break(s) ==> s[..Break(s)][i] == s[i];
  }

  lemma {:induction false} LineAlone(prefix: Bytes, x: Bytes)
    requires Break(x) < |x|
    ensures var k := Break(x);
      Printed(prefix, x) == prefix + x[..k + 1] + Printed(prefix, x[k + 1..]) && Left(x) == Left(x[k + 1..])
  {
    var k := Break(x);
    Reassociate(prefix + x[..k + 1], Lines(prefix, x[k + 1..]), Pieces(prefix, Tail(x[k + 1..])));
  }

  lemma {:induction false} BreakBefore(x: Bytes, y: Bytes)
    requires Break(x) < |x|
    ensures var k := Break(x);
      Break(x + y) == k && (x + y)[..k + 1] == x[..k + 1] && (x + y)[k + 1..] == x[k + 1..] + y
  {
    var k := Break(x);
    BreakIsFirst(x);
    assert (x + y)[..k] == x[..k] && (x + y)[k] == NEWLINE;
    BreakUnique(x + y, k);
  }

  /** Reading past a complete line. */
  lemma {:induction false} LineFirst(prefix: Bytes, x: Bytes, y: Bytes)
    requires Break(x) < |x|
    ensures var k := Break(x);
      && Printed(prefix, x + y) == prefix + x[..k + 1] + Printed(prefix, x[k + 1..] + y)
      && Left(x + y) == Left(x[k + 1..] + y)
      && (ShortLines(x + y) <==> k < MAX_LINE && ShortLines(x[k + 1..] + y))
  {
    BreakBefore(x, y);
    LineAlone(prefix, x + y);
  }

  lemma {:induction false} PiecesJoin(prefix: Bytes, x: Bytes, y: Bytes)
    ensures Pieces(prefix, x + y) == Pieces(prefix, x) + Pieces(prefix, Rest(x) + y)
    ensures Rest(x + y) == Rest(Rest(x) + y)
  {
    if |x| >= MAX_LINE {
      assert (x + y)[..MAX_LINE] == x[..MAX_LINE] && (x + y)[MAX_LINE..] == x[MAX_LINE..] + y;
      PiecesJoin(prefix, x[MAX_LINE..], y);
      Reassociate(prefix + x[..MAX_LINE] + [NEWLINE], Pieces(prefix, x[MAX_LINE..]), Pieces(prefix, Rest(x) + y));
    }
  }

  lemma {:induction false} NoBreak(prefix: Bytes, s: Bytes)
    requires NEWLINE !in s
    ensures Printed(prefix, s) == Pieces(prefix, s) && Left(s) == Rest(s)
  {
    assert s[..|s|] == s;
    BreakUnique(s, |s|);
  }

  function Flatten(payloads: seq<Bytes>): Bytes {
    if payloads == [] then [] else payloads[0] + Flatten(payloads[1..])
  }

  /** What is printed for the payloads in turn, and what is then left in the buffer. */
  function PrintedAll(prefix: Bytes, buffer: Bytes, payloads: seq<Bytes>): Bytes
    decreases |payloads|
  {
    if payloads == [] then []
    else Printed(prefix, buffer + payloads[0]) + PrintedAll(prefix, Left(buffer + payloads[0]), payloads[1..])
  }

  function LeftAll(buffer: Bytes, payloads: seq<Bytes>): Bytes
    decreases |payloads|
  {
    if payloads == [] then buffer else LeftAll(Left(buffer + payloads[0]), payloads[1..])
  }

  /** What a frame can carry. */
  predicate Legal(payloads: seq<Bytes>) {
    forall i :: 0 <= i < |payloads| ==> |payloads[i]| <= MAX_PAYLOAD
  }

  lemma {:induction false} BreakAcross(x: Bytes, y: Bytes)
    requires NEWLINE !in x
    ensures Break(x + y) == |x| + Break(y)
    ensures var j := Break(y);
      (x + y)[..|x| + j] == x + y[..j] && (j < |y| ==> (x + y)[|x| + j + 1..] == y[j + 1..])
  {
    var j := Break(y);
    BreakIsFirst(y);
    assert (x + y)[..|x| + j] == x + y[..j];
    BreakUnique(x + y, |x| + j);
  }

  lemma {:induction false} Regroup(a: Bytes, b: Bytes, c: Bytes, d: Bytes)
    ensures (a + b) + c + d == a + (b + c + d)
  {
  }

  lemma {:induction false} CutTerminated(prefix: Bytes, x: Bytes, z: Bytes)
    requires NEWLINE !in x && Break(z) < |z|
    ensures var line := x + z[..Break(z)];
      Cut(prefix, x + z) == Pieces(prefix, line) + (prefix + Rest(line) + [NEWLINE]) + Cut(prefix, z[Break(z) + 1..])
  {
    BreakAcross(x, z);
  }

  lemma {:induction false} CutUnterminated(prefix: Bytes, x: Bytes, z: Bytes)
    requires NEWLINE !in x
    ensures Cut(prefix, x + z) == Pieces(prefix, x) + Cut(prefix, Rest(x) + z)
  {
    var j := Break(z);
    RestIsShort(x);
    if j == |z| {
      BreakAcross(x, z);
      BreakAcross(Rest(x), z);
      PiecesJoin(prefix, x, z);
    } else {
      var line := z[..j];
      CutTerminated(prefix, x, z);
      CutTerminated(prefix, Rest(x), z);
      PiecesJoin(prefix, x, line);
      Regroup(Pieces(prefix, x), Pieces(prefix, Rest(x) + line), prefix + Rest(x + line) + [NEWLINE], Cut(prefix, z[j + 1..]));
    }
  }

  /** Printing a first part whose lines are short is the first part of cutting the whole. */
  lemma {:induction false} CutJoin(prefix: Bytes, x: Bytes, z: Bytes)
    requires ShortLines(x)
    ensures Cut(prefix, x + z) == Printed(prefix, x) + Cut(prefix, Left(x) + z)
    decreases |x|
  {
    var k := Break(x);
    if k < |x| {
      BreakBefore(x, z);
      LineAlone(prefix, x);
      CutJoin(prefix, x[k + 1..], z);
      ShortLineWhole(prefix, x + z, k);
      assert (x + z)[..k + 1] == x[..k + 1];
      Reassociate(prefix + x[..k + 1], Printed(prefix, x[k + 1..]), Cut(prefix, Left(x) + z));
    } else {
      BreakIsFirst(x);
      NoBreak(prefix, x);
      CutUnterminated(prefix, x, z);
    }
  }

  lemma {:induction false} ShortLineWhole(prefix: Bytes, s: Bytes, k: nat)
    requires Break(s) == k < |s| && k < MAX_LINE
    ensures Cut(prefix, s) == prefix + s[..k + 1] + Cut(prefix, s[k + 1..])
  {
    BreakIsFirst(s);
    assert s[..k + 1] == s[..k] + [NEWLINE];
    assert prefix + s[..k] + [NEWLINE] == prefix + s[..k + 1];
    assert [] + (prefix + s[..k + 1]) == prefix + s[..k + 1];
  }

  lemma {:induction false} RestSize(t: Bytes)
    ensures |Rest(t)| == |t| % MAX_LINE
  {
    if |t| >= MAX_LINE { RestSize(t[MAX_LINE..]); }
  }

  lemma {:induction false} EvenShrinks(a: nat, b: nat)
    requires EvenLength(a + b)
    ensures EvenLength(a % MAX_LINE + b)
  {
    var n := a / MAX_LINE;
    assert a + b == n * MAX_LINE + (a % MAX_LINE + b);
  }

  lemma {:induction false} EvenUnterminated(x: Bytes, z: Bytes)
    requires NEWLINE !in x && EvenLines(x + z)
    ensures EvenLines(Rest(x) + z)
  {
    RestIsShort(x);
    RestSize(x);
    BreakAcross(x, z);
    BreakAcross(Rest(x), z);
    var j := Break(z);
    if j < |z| {
      EvenShrinks(|x|, j);
      assert EvenLines(z[j + 1..]);
    }
  }

  /** What is left to print stays even. */
  lemma {:induction false} EvenAfter(x: Bytes, z: Bytes)
    requires EvenLines(x + z)
    ensures EvenLines(Left(x) + z)
    decreases |x|
  {
    var k := Break(x);
    if k < |x| {
      BreakBefore(x, z);
      LineAlone([], x);
      EvenAfter(x[k + 1..], z);
    } else {
      BreakIsFirst(x);
      NoBreak([], x);
      EvenUnterminated(x, z);
    }
  }

  lemma {:induction false} SmallIsShort(s: Bytes)
    requires |s| <= MAX_LINE
    ensures ShortLines(s)
    decreases |s|
  {
    if Break(s) < |s| { SmallIsShort(s[Break(s) + 1..]); }
  }

  lemma {:induction false} EvenIsShort(k: nat)
    requires EvenLength(k) && k < 2 * MAX_LINE - 1
    ensures k < MAX_LINE
  {
  }

  /** One legal payload after a kept rest completes short lines only. */
  lemma {:induction false} PayloadIsShort(buffer: Bytes, payload: Bytes, z: Bytes)
    requires NEWLINE !in buffer && |buffer| < MAX_LINE && |payload| <= MAX_PAYLOAD && EvenLines(buffer + payload + z)
    ensures ShortLines(buffer + payload)
  {
    var x, j := buffer + payload, Break(payload);
    BreakAcross(buffer, payload);
    if j < |payload| {
      BreakBefore(x, z);
      EvenIsShort(|buffer| + j);
      SmallIsShort(payload[j + 1..]);
    }
  }

  /** With even lines, every legal way of delivering the data prints the same. */
  lemma {:induction false} CutAll(prefix: Bytes, buffer: Bytes, payloads: seq<Bytes>)
    requires EvenLines(buffer + Flatten(payloads)) && NEWLINE !in buffer && |buffer| < MAX_LINE && Legal(payloads)
    ensures PrintedAll(prefix, buffer, payloads) == Cut(prefix, buffer + Flatten(payloads))
    decreases |payloads|
  {
    if payloads == [] {
      assert buffer + [] == buffer;
      NoBreak(prefix, buffer);
      BreakUnique(buffer, |buffer|);
    } else {
      var x, z := buffer + payloads[0], Flatten(payloads[1..]);
      assert buffer + Flatten(payloads) == x + z;
      PayloadIsShort(buffer, payloads[0], z);
      CutJoin(prefix, x, z);
      LeftIsShort(x);
      EvenAfter(x, z);
      CutAll(prefix, Left(x), payloads[1..]);
    }
  }

  /** What is kept at the end does not depend on the delivery at all. */
  lemma {:induction false} LeftJoin(x: Bytes, z: Bytes)
    ensures Left(x + z) == Left(Left(x) + z)
    decreases |x|
  {
    var k := Break(x);
    if k < |x| {
      LineFirst([], x, z);
      LineAlone([], x);
      LeftJoin(x[k + 1..], z);
    } else {
      BreakIsFirst(x);
      NoBreak([], x);
      RestIsShort(x);
      BreakAcross(x, z);
      BreakAcross(Rest(x), z);
      if Break(z) == |z| { PiecesJoin([], x, z); }
    }
  }

  lemma {:induction false} LeftAllJoin(buffer: Bytes, payloads: seq<Bytes>)
    requires NEWLINE !in buffer && |buffer| < MAX_LINE
    ensures LeftAll(buffer, payloads) == Left(buffer + Flatten(payloads))
    decreases |payloads|
  {
    if payloads == [] {
      assert buffer + [] == buffer;
      NoBreak([], buffer);
    } else {
      var x := buffer + payloads[0];
      assert buffer + Flatten(payloads) == x + Flatten(payloads[1..]);
      LeftJoin(x, Flatten(payloads[1..]));
      LeftIsShort(x);
      LeftAllJoin(Left(x), payloads[1..]);
    }
  }

  // ----- deliveries that print differently -----

  lemma {:induction false} PrintedConcat(prefix: Bytes, buffer: Bytes, a: seq<Bytes>, b: seq<Bytes>)
    ensures PrintedAll(prefix, buffer, a + b) == PrintedAll(prefix, buffer, a) + PrintedAll(prefix, LeftAll(buffer, a), b)
    ensures LeftAll(buffer, a + b) == LeftAll(LeftAll(buffer, a), b)
    ensures Flatten(a + b) == Flatten(a) + Flatten(b)
    decreases |a|
  {
    if a == [] {
      assert a + b == b;
    } else {
      var left := Left(buffer + a[0]);
      assert (a + b)[1..] == a[1..] + b;
      PrintedConcat(prefix, left, a[1..], b);
      Reassociate(Printed(prefix, buffer + a[0]), PrintedAll(prefix, left, a[1..]), PrintedAll(prefix, LeftAll(left, a[1..]), b));
      Reassociate(a[0], Flatten(a[1..]), Flatten(b));
    }
  }

  /** Full frames, then the rest. */
  function Framed(s: Bytes): seq<Bytes> {
    if |s| <= MAX_PAYLOAD then [s] else [s[..MAX_PAYLOAD]] + Framed(s[MAX_PAYLOAD..])
  }

  lemma {:induction false} FramedIsLegal(s: Bytes)
    ensures Legal(Framed(s)) && Flatten(Framed(s)) == s
  {
    var f := Framed(s);
    if |s| <= MAX_PAYLOAD {
      assert f[1..] == [] && s + [] == s;
    } else {
      FramedIsLegal(s[MAX_PAYLOAD..]);
      assert f[1..] == Framed(s[MAX_PAYLOAD..]) && s == s[..MAX_PAYLOAD] + s[MAX_PAYLOAD..];
    }
  }

  /** Bytes of an unterminated line are printed as its pieces. */
  lemma {:induction false} FramedPrints(prefix: Bytes, s: Bytes)
    requires NEWLINE !in s
    ensures PrintedAll(prefix, [], Framed(s)) == Pieces(prefix, s) && LeftAll([], Framed(s)) == Rest(s)
  {
    FramedIsLegal(s);
    BreakAcross(s, []);
    assert s + [] == s && [] + s == s;
    CutAll(prefix, [], Framed(s));
    LeftAllJoin([], Framed(s));
    NoBreak(prefix, s);
  }

  /** A line whose last frame brings `end` and the newline, the bytes before it having come in full frames. */
  function Delivered(start: Bytes, end: Bytes): seq<Bytes> { Framed(start) + [end + [NEWLINE]] }

  lemma {:induction false} DeliveredPrints(prefix: Bytes, start: Bytes, end: Bytes)
    requires NEWLINE !in start && NEWLINE !in end && |end| < MAX_PAYLOAD
    ensures var d := Delivered(start, end);
      && Legal(d) && Flatten(d) == start + end + [NEWLINE] && LeftAll([], d) == []
      && PrintedAll(prefix, [], d) == Pieces(prefix, start) + (prefix + (Rest(start) + end + [NEWLINE]))
  {
    var last := end + [NEWLINE];
    FramedIsLegal(start);
    FramedPrints(prefix, start);
    PrintedConcat(prefix, [], Framed(start), [last]);
    var only: seq<Bytes> := [last];
    assert only[1..] == [] && last + [] == last && start + last == start + end + [NEWLINE];
    RestIsShort(start);
    OneLine(prefix, Rest(start) + end);
    assert Rest(start) + last == Rest(start) + end + [NEWLINE];
    var line := prefix + (Rest(start) + end + [NEWLINE]);
    assert line + [] == line;
  }

  lemma {:induction false} OneLine(prefix: Bytes, line: Bytes)
    requires NEWLINE !in line
    ensures Printed(prefix, line + [NEWLINE]) == prefix + (line + [NEWLINE]) && Left(line + [NEWLINE]) == []
  {
    var s := line + [NEWLINE];
    assert s[..|line|] == line;
    BreakUnique(s, |line|);
    LineAlone(prefix, s);
    assert s[..|line| + 1] == s && s[|line| + 1..] == [];
    assert Printed(prefix, []) == [] && Left([]) == [];
    assert prefix + s + [] == prefix + s;
  }

  /** An uneven line in two deliveries: its newline in a frame of its own, or with one byte more than its last piece. */
  lemma {:induction false} UnevenLine(prefix: Bytes, line: Bytes) returns (cut: nat)
    requires NEWLINE !in line && !EvenLength(|line|)
    ensures cut <= |line| && |line| - cut < MAX_PAYLOAD
    ensures var p, q := Delivered(line, []), Delivered(line[..cut], line[cut..]);
      |PrintedAll(prefix, [], p)| == |PrintedAll(prefix, [], q)| + |prefix| + 1
  {
    var m := |line| % MAX_LINE + 1;
    cut := |line| - m;
    var start, end := line[..cut], line[cut..];
    assert line == start + end;
    DeliveredPrints(prefix, line, []);
    DeliveredPrints(prefix, start, end);
    PiecesJoin(prefix, start, end);
    RestSize(start);
    RestSize(line);
    OnePiece(prefix, Rest(start) + end);
  }

  lemma {:induction false} OnePiece(prefix: Bytes, t: Bytes)
    requires MAX_LINE <= |t| < 2 * MAX_LINE
    ensures |Pieces(prefix, t)| == |prefix| + MAX_LINE + 1
  {
    assert Pieces(prefix, t[MAX_LINE..]) == [];
  }

  lemma {:induction false} Followed(prefix: Bytes, first: seq<Bytes>, more: seq<Bytes>, line: Bytes, rest: Bytes)
    requires Legal(first) && Legal(more) && LeftAll([], first) == [] && Flatten(first) == line && Flatten(more) == rest
    ensures Legal(first + more) && Flatten(first + more) == line + rest
    ensures |PrintedAll(prefix, [], first + more)| == |PrintedAll(prefix, [], first)| + |PrintedAll(prefix, [], more)|
  {
    PrintedConcat(prefix, [], first, more);
  }

  lemma {:induction false} LineAndRest(s: Bytes, k: nat)
    requires k < |s| && s[k] == NEWLINE
    ensures s == (s[..k] + [] + [NEWLINE]) + s[k + 1..]
  {
  }

  /** Data with an uneven line has two legal deliveries that print differently. */
  lemma {:induction false} UnevenShows(prefix: Bytes, s: Bytes) returns (p: seq<Bytes>, q: seq<Bytes>)
    requires !EvenLines(s)
    ensures Legal(p) && Legal(q) && Flatten(p) == s && Flatten(q) == s
    ensures |PrintedAll(prefix, [], p)| > |PrintedAll(prefix, [], q)|
    decreases |s|
  {
    var k := Break(s);
    BreakIsFirst(s);
    LineAndRest(s, k);
    var line, rest := s[..k], s[k + 1..];
    var whole, first := line + [] + [NEWLINE], Delivered(line, []);
    DeliveredPrints(prefix, line, []);
    if EvenLength(k) {
      var pp, qq := UnevenShows(prefix, rest);
      Followed(prefix, first, pp, whole, rest);
      Followed(prefix, first, qq, whole, rest);
      p, q := first + pp, first + qq;
    } else {
      var cut := UnevenLine(prefix, line);
      var other := Delivered(line[..cut], line[cut..]);
      DeliveredPrints(prefix, line[..cut], line[cut..]);
      assert line[..cut] + line[cut..] + [NEWLINE] == whole;
      FramedIsLegal(rest);
      Followed(prefix, first, Framed(rest), whole, rest);
      Followed(prefix, other, Framed(rest), whole, rest);
      p, q := first + Framed(rest), other + Framed(rest);
    }
  }

  /** The output is the same for every legal delivery exactly when every terminated line is short or of even length. */
  lemma {:induction false} FragmentationIndependent(prefix: Bytes, s: Bytes)
    ensures EvenLines(s) <==>
            forall p, q :: Legal(p) && Legal(q) && Flatten(p) == s && Flatten(q) == s ==>
              PrintedAll(prefix, [], p) == PrintedAll(prefix, [], q)
  {
    if EvenLines(s) {
      forall p, q | Legal(p) && Legal(q) && Flatten(p) == s && Flatten(q) == s
        ensures PrintedAll(prefix, [], p) == PrintedAll(prefix, [], q)
      {
        assert [] + s == s;
        CutAll(prefix, [], p);
        CutAll(prefix, [], q);
      }
    } else {
      var p, q := UnevenShows(prefix, s);
      assert PrintedAll(prefix, [], p) != PrintedAll(prefix, [], q);
    }
  }

  /** A line of exactly 64 KiB: its newline in a frame of its own adds an empty line; with the last byte it does not. */
  lemma {:induction false} FullLineShows(prefix: Bytes, line: Bytes)
    requires NEWLINE !in line && |line| == MAX_LINE
    ensures var p, q := [line, [NEWLINE]], [line[..MAX_LINE - 1], [line[MAX_LINE - 1], NEWLINE]];
      && Legal(p) && Legal(q) && Flatten(p) == Flatten(q) == line + [NEWLINE]
      && PrintedAll(prefix, [], p) == prefix + line + [NEWLINE] + (prefix + [NEWLINE])
      && PrintedAll(prefix, [], q) == prefix + (line + [NEWLINE])
  {
    var start, end := line[..MAX_LINE - 1], [line[MAX_LINE - 1]];
    assert line == start + end;
    DeliveredPrints(prefix, line, []);
    DeliveredPrints(prefix, start, end);
    assert Framed(line) == [line] && Framed(start) == [start];
    assert [] + [NEWLINE] == [NEWLINE] && end + [NEWLINE] == [line[MAX_LINE - 1], NEWLINE];
    assert Delivered(line, []) == [line, [NEWLINE]];
    assert Delivered(start, end) == [start, [line[MAX_LINE - 1], NEWLINE]];
    assert line[MAX_LINE..] == [] && line[..MAX_LINE] == line;
    assert Pieces(prefix, []) == [] && Rest([]) == [];
    assert Pieces(prefix, line) == prefix + line + [NEWLINE] + [] && Rest(line) == [];
    assert [] + [] + [NEWLINE] == [NEWLINE];
  }
}
