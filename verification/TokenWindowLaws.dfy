/** What the window loop guarantees, proved from the reference definition of its windows. */
module TokenWindowLaws {
  import opened Utf8
  import opened TokenWindows

  // ----- coverage

  /** A window's successor ends strictly later, because it reaches past the kept overlap. */
  lemma EndsAdvance(bs: seq<nat>, n: nat, size: nat, overlap: nat, w: TokenWindow, v: TokenWindow)
    requires IsSafeWindow(bs, n, size, overlap, w) && Follows(bs, n, overlap, w, v.tokenStart)
    requires IsSafeWindow(bs, n, size, overlap, v)
    ensures w.tokenEnd < v.tokenEnd
  {
    if v.tokenStart + size < n {
      var f: nat, p: nat :| IsFirstFrom(bs, v.tokenStart + 1, f) && IsLastUpTo(bs, v.tokenStart + size, p)
        && EndGiven(bs, n, overlap, f, p, v.tokenEnd);
      assert f > w.tokenEnd - overlap;
    }
  }

  lemma {:induction false} ChainToPointwise(bs: seq<nat>, n: nat, size: nat, overlap: nat, ws: seq<TokenWindow>,
                                            start: nat)
    requires ChainTo(bs, n, size, overlap, ws, start)
    ensures ws != [] ==> ws[0].tokenStart == 0
    ensures forall i :: 0 <= i < |ws| ==> IsSafeWindow(bs, n, size, overlap, ws[i]) && ws[i].tokenEnd < n
    ensures forall i, j :: 0 <= i < j < |ws| && j == i + 1 ==> Follows(bs, n, overlap, ws[i], ws[j].tokenStart)
  {
    if ws != [] {
      var k := |ws| - 1;
      ChainToPointwise(bs, n, size, overlap, ws[..k], ws[k].tokenStart);
      assert forall i | 0 <= i < k :: ws[i] == ws[..k][i];
    }
  }

  /** No gap and no stall: the windows start at 0 and end at `n`, starts and ends strictly increase, and
      each start is the last safe position keeping at least `overlap` tokens of the window before. */
  lemma WindowsCover(bs: seq<nat>, n: nat, size: nat, overlap: nat, ws: seq<TokenWindow>)
    requires WindowChain(bs, n, size, overlap, ws)
    ensures ws[0].tokenStart == 0 && ws[|ws| - 1].tokenEnd == n
    ensures forall i :: 0 <= i < |ws| ==>
      ws[i].tokenStart in bs && ws[i].tokenEnd in bs && ws[i].tokenStart < ws[i].tokenEnd
    ensures forall i, j :: 0 <= i < j < |ws| && j == i + 1 ==>
      && ws[i].tokenStart < ws[j].tokenStart <= ws[i].tokenEnd - overlap
      && ws[i].tokenEnd < ws[j].tokenEnd
      && forall b :: b in bs && b <= ws[i].tokenEnd - overlap ==> b <= ws[j].tokenStart
  {
    var k := |ws| - 1;
    ChainToPointwise(bs, n, size, overlap, ws[..k], ws[k].tokenStart);
    assert forall i | 0 <= i < k :: ws[i] == ws[..k][i];
    forall i, j | 0 <= i < j < |ws| && j == i + 1
      ensures Follows(bs, n, overlap, ws[i], ws[j].tokenStart) && ws[i].tokenEnd < ws[j].tokenEnd
    {
      EndsAdvance(bs, n, size, overlap, ws[i], ws[j]);
    }
  }

  lemma WindowsPointwise(bs: seq<nat>, n: nat, size: nat, overlap: nat, ws: seq<TokenWindow>)
    requires WindowChain(bs, n, size, overlap, ws)
    ensures forall i :: 0 <= i < |ws| ==> IsSafeWindow(bs, n, size, overlap, ws[i])
  {
    var k := |ws| - 1;
    ChainToPointwise(bs, n, size, overlap, ws[..k], ws[k].tokenStart);
    assert forall i | 0 <= i < k :: ws[i] == ws[..k][i];
  }

  // ----- length of a window

  ghost predicate MaxGap(bs: seq<nat>, g: nat) {
    forall i, j :: 0 <= i < j < |bs| && j == i + 1 ==> bs[j] - bs[i] <= g
  }

  lemma FirstWithinGap(bs: seq<nat>, n: nat, g: nat, x: int, b: nat)
    requires Spans(bs, n) && MaxGap(bs, g) && 0 < x && IsFirstFrom(bs, x, b)
    ensures b < x + g
  {
    var k :| 0 <= k < |bs| && bs[k] == b;
    var previous := k - 1;
    assert bs[k] - bs[previous] <= g && bs[previous] in bs;
  }

  /** The longest a window can be: the token budget, or what two gaps and the overlap need. */
  function LengthBound(size: nat, overlap: nat, g: nat): int {
    var needed := if overlap == 0 then g else overlap + 2 * g - 1;
    if size < needed then needed else size
  }

  lemma WindowLength(bs: seq<nat>, n: nat, size: nat, overlap: nat, g: nat, start: nat, end: nat)
    requires Spans(bs, n) && MaxGap(bs, g) && overlap < size && start < n
    requires IsWindowEnd(bs, n, size, overlap, start, end)
    ensures end - start <= LengthBound(size, overlap, g)
  {
    if start + size < n {
      var f: nat, p: nat :| IsFirstFrom(bs, start + 1, f) && IsLastUpTo(bs, start + size, p)
        && EndGiven(bs, n, overlap, f, p, end);
      FirstWithinGap(bs, n, g, start + 1, f);
      if p < f + overlap <= n {
        FirstWithinGap(bs, n, g, f + overlap, end);
      }
    }
  }

  /** A window that does not reach `n` cannot be shorter than its budget by a whole gap. */
  lemma ReachesGap(bs: seq<nat>, n: nat, size: nat, overlap: nat, g: nat, w: TokenWindow)
    requires Spans(bs, n) && MaxGap(bs, g) && overlap < size && IsSafeWindow(bs, n, size, overlap, w)
    ensures w.tokenEnd == n || w.tokenStart + size < w.tokenEnd + g
  {
    var start, end := w.tokenStart, w.tokenEnd;
    if start + size < n && end < n {
      var f: nat, p: nat :| IsFirstFrom(bs, start + 1, f) && IsLastUpTo(bs, start + size, p)
        && EndGiven(bs, n, overlap, f, p, end);
      var q := FirstExists(bs, n, end + 1);
      FirstWithinGap(bs, n, g, end + 1, q);
      assert p <= end;
    }
  }

  lemma FirstExists(bs: seq<nat>, n: nat, x: nat) returns (q: nat)
    requires Spans(bs, n) && x <= n
    ensures IsFirstFrom(bs, x, q)
  {
    q := bs[BisectRight(bs, x - 1)];
  }

  /** The bound is attained for every gap of at least two tokens and every overlap. */
  lemma WindowLengthAttained(g: nat, overlap: nat) returns (bs: seq<nat>, n: nat)
    requires 2 <= g
    ensures Spans(bs, n) && MaxGap(bs, g)
    ensures overlap + 1 < LengthBound(overlap + 1, overlap, g)
    ensures IsWindowEnd(bs, n, overlap + 1, overlap, 0, LengthBound(overlap + 1, overlap, g))
  {
    n := if overlap == 0 then g else 2 * g + overlap - 1;
    bs := Staircase(g, overlap, n);
    assert IsFirstFrom(bs, 1, g) && IsFirstFrom(bs, g + overlap, n);
    var p := LastExists(bs, n, overlap + 1);
    assert EndGiven(bs, n, overlap, g, p, n);
  }

  /** Position 0, then `count` consecutive positions from `g`, then `n`. */
  lemma Staircase(g: nat, count: nat, n: nat) returns (bs: seq<nat>)
    requires 0 < g && n == if count == 0 then g else 2 * g + count - 1
    ensures Spans(bs, n) && MaxGap(bs, g)
    ensures forall b :: b in bs <==> b == 0 || g <= b < g + count || b == n
  {
    if count == 0 {
      bs := [0, g];
      assert bs[0] in bs && bs[1] in bs;
    } else {
      var steps := seq(count, i => g + i);
      bs := [0] + steps + [n];
      RunOf(steps, g, count);
      assert forall b :: b in bs <==> b == 0 || b in steps || b == n;
      assert forall i | 1 <= i <= count :: bs[i] == steps[i - 1];
    }
  }

  lemma RunOf(steps: seq<nat>, g: nat, count: nat)
    requires |steps| == count && forall i :: 0 <= i < count ==> steps[i] == g + i
    ensures forall b :: b in steps <==> g <= b < g + count
  {
    forall b | g <= b < g + count ensures b in steps {
      assert steps[b - g] == b;
    }
  }

  lemma LastExists(bs: seq<nat>, n: nat, x: nat) returns (p: nat)
    requires Spans(bs, n)
    ensures IsLastUpTo(bs, x, p)
  {
    var k := BisectRight(bs, x) - 1;
    assert bs[k + 1 - 1] <= x;
    p := bs[k];
  }

  /** The documented bound says a window passes `size` only to reach the next safe position `q`. It
      holds exactly when `q` is the end of the text or lets the next window advance. */
  lemma DocumentedBoundIff(bs: seq<nat>, n: nat, size: nat, overlap: nat, start: nat, end: nat, f: nat, q: nat)
    requires Spans(bs, n) && start + size < n && IsWindowEnd(bs, n, size, overlap, start, end)
    requires IsFirstFrom(bs, start + 1, f) && IsFirstFrom(bs, start + size, q)
    ensures end <= q <==> q == n || f + overlap <= q
  {
    var f': nat, p: nat :| IsFirstFrom(bs, start + 1, f') && IsLastUpTo(bs, start + size, p)
      && EndGiven(bs, n, overlap, f', p, end);
    assert f' == f;
    assert n in bs && bs[|bs| - 1] == n;
  }

  /** A tokenizer that makes every byte a token. */
  function Bytewise(text: seq<Scalar>): (pieces: seq<seq<Byte>>)
    ensures |pieces| == |Encode(text)|
  {
    Singletons(Encode(text))
  }

  function Singletons(data: seq<Byte>): (pieces: seq<seq<Byte>>)
    ensures |pieces| == |data| && forall i :: 0 <= i < |data| ==> pieces[i] == [data[i]]
  {
    seq(|data|, i requires 0 <= i < |data| => [data[i]])
  }

  lemma {:induction false} JoinSingletons(data: seq<Byte>, i: nat)
    requires i <= |data|
    ensures Join(Singletons(data)[..i]) == data[..i]
  {
    if i > 0 {
      JoinSingletons(data, i - 1);
      assert Singletons(data)[..i][..i - 1] == Singletons(data)[..i - 1];
    }
  }

  /** Its safe positions are the lengths of the encoded prefixes. */
  lemma BytewiseSafe(text: seq<Scalar>, i: nat)
    requires i <= |Encode(text)|
    ensures Join(Bytewise(text)) == Encode(text) && |Join(Bytewise(text)[..i])| == i
    ensures var pieces := Bytewise(text);
      && (i in SafePositions(pieces, |pieces|) <==> exists k :: 0 <= k <= |text| && |Encode(text[..k])| == i)
      && (i in SafePositions(pieces, |pieces|) ==>
        CharsBefore(pieces, i) <= |text| && |Encode(text[..CharsBefore(pieces, i)])| == i)
  {
    var pieces := Bytewise(text);
    JoinSingletons(Encode(text), i);
    JoinSingletons(Encode(text), |pieces|);
    assert pieces[..|pieces|] == pieces;
    SafePositionsExact(text, pieces, i);
  }

  /** With characters of one byte each, every position is safe, and positions count characters. */
  lemma AsciiEverywhere(text: seq<Scalar>)
    requires forall i :: 0 <= i < |text| ==> text[i] < 0x80
    ensures var pieces, n := Bytewise(text), |text|;
      && |pieces| == n && Join(pieces) == Encode(text) && MaxGap(SafePositions(pieces, n), 1)
      && (forall i: nat :: i <= n ==> i in SafePositions(pieces, n) && CharsBefore(pieces, i) == i)
  {
    var pieces, n := Bytewise(text), |text|;
    AsciiPrefix(text, n);
    assert text[..n] == text;
    BytewiseSafe(text, n);
    forall i: nat | i <= n ensures i in SafePositions(pieces, n) && CharsBefore(pieces, i) == i {
      AsciiPrefix(text, i);
      BytewiseSafe(text, i);
      AsciiPrefix(text, CharsBefore(pieces, i));
    }
    SafePositionsMembers(pieces, n);
    EveryPosition(SafePositions(pieces, n), n);
  }

  lemma {:induction false} AsciiPrefix(text: seq<Scalar>, k: nat)
    requires k <= |text| && forall i :: 0 <= i < |text| ==> text[i] < 0x80
    ensures |Encode(text[..k])| == k
  {
    if k > 0 {
      assert text[..k] == text[..k - 1] + [text[k - 1]];
      EncodeConcat(text[..k - 1], [text[k - 1]]);
      EncodeCons(text[k - 1], []);
      AsciiPrefix(text, k - 1);
    }
  }

  /** A table of all positions has gaps of one. */
  lemma EveryPosition(bs: seq<nat>, n: nat)
    requires StrictlyIncreasing(bs) && (forall i: nat :: i <= n ==> i in bs) && forall b :: b in bs ==> b <= n
    ensures MaxGap(bs, 1)
  {
    forall i, j | 0 <= i < j < |bs| && j == i + 1 ensures bs[j] - bs[i] <= 1 {
      assert bs[j] in bs;
      var x: nat := bs[i] + 1;
      assert x in bs;
      var k :| 0 <= k < |bs| && bs[k] == x;
      assert i < k;
    }
  }

  lemma ThreeByteLengths(c: Scalar, d: Scalar)
    requires 0x800 <= c < 0x10000 && 0x800 <= d < 0x10000
    ensures |Encode([c, d][..0])| == 0 && |Encode([c, d][..1])| == 3 && |Encode([c, d][..2])| == 6
    ensures |Encode([c, d])| == 6
  {
    assert [c, d][..0] == [] && [c, d][..1] == [c] && [c, d][..2] == [c, d];
    assert [c][1..] == [] && [c, d][1..] == [d] && [d][1..] == [];
    assert Encode([d]) == EncodeScalar(d) + [];
    assert Encode([c]) == EncodeScalar(c) + [];
  }

  /** Any two characters of three bytes each, one token a byte, size 2, overlap 1: the first window takes all
      six tokens although position 3, the next boundary after two tokens, is already safe. */
  lemma DocumentedBoundFails(c: Scalar, d: Scalar)
    requires 0x800 <= c < 0x10000 && 0x800 <= d < 0x10000
    ensures var pieces := Bytewise([c, d]);
      && |pieces| == 6 && Join(pieces) == Encode([c, d])
      && var bs := SafePositions(pieces, 6);
         Spans(bs, 6) && IsFirstFrom(bs, 2, 3) && IsWindowEnd(bs, 6, 2, 1, 0, 6)
  {
    var text := [c, d];
    var pieces := Bytewise(text);
    ThreeByteLengths(c, d);
    var bs := SafePositions(pieces, 6);
    SafePositionsMembers(pieces, 6);
    BytewiseSafe(text, 6);
    forall i | 0 <= i <= 6 ensures i in bs <==> i == 0 || i == 3 || i == 6 {
      ThreeByteSafe(c, d, i);
    }
    LongFirstWindow(bs);
  }

  lemma ThreeByteSafe(c: Scalar, d: Scalar, i: nat)
    requires 0x800 <= c < 0x10000 && 0x800 <= d < 0x10000 && i <= 6 && |Encode([c, d])| == 6
    ensures i in SafePositions(Bytewise([c, d]), 6) <==> i == 0 || i == 3 || i == 6
  {
    var text := [c, d];
    BytewiseSafe(text, i);
    ThreeByteLengths(c, d);
    forall k | 0 <= k <= 2 ensures |Encode(text[..k])| == 3 * k {
    }
    if i == 0 || i == 3 || i == 6 {
      assert |Encode(text[..i / 3])| == i;
    }
  }

  lemma LongFirstWindow(bs: seq<nat>)
    requires StrictlyIncreasing(bs) && bs != [] && bs[0] == 0 && forall i :: i in bs <==> i == 0 || i == 3 || i == 6
    ensures Spans(bs, 6) && IsFirstFrom(bs, 2, 3) && IsWindowEnd(bs, 6, 2, 1, 0, 6)
  {
    LastIsEnd(bs, 6);
    assert IsFirstFrom(bs, 1, 3) && IsLastUpTo(bs, 2, 0) && IsFirstFrom(bs, 4, 6);
    assert EndGiven(bs, 6, 1, 3, 0, 6);
  }

  lemma LastIsEnd(bs: seq<nat>, n: nat)
    requires StrictlyIncreasing(bs) && bs != [] && n in bs && forall b :: b in bs ==> b <= n
    ensures bs[|bs| - 1] == n
  {
    var k :| 0 <= k < |bs| && bs[k] == n;
    assert bs[|bs| - 1] in bs;
  }

  // ----- the closed form when every position is safe

  lemma SafeEverywhereEnd(bs: seq<nat>, n: nat, size: nat, overlap: nat, start: nat, end: nat)
    requires (forall b: nat :: b <= n ==> b in bs) && overlap < size
    requires IsWindowEnd(bs, n, size, overlap, start, end)
    ensures end == if start + size < n then start + size else n
  {
    if start + size < n {
      var f: nat, p: nat :| IsFirstFrom(bs, start + 1, f) && IsLastUpTo(bs, start + size, p)
        && EndGiven(bs, n, overlap, f, p, end);
      assert start + 1 in bs && start + size in bs;
    }
  }

  lemma {:induction false} SafeEverywhereChain(bs: seq<nat>, n: nat, size: nat, overlap: nat, ws: seq<TokenWindow>,
                                               start: nat)
    requires (forall b: nat :: b <= n ==> b in bs) && overlap < size
    requires ChainTo(bs, n, size, overlap, ws, start)
    ensures start == Stride(|ws|, size - overlap)
    ensures forall i :: 0 <= i < |ws| ==>
      ws[i].tokenStart == Stride(i, size - overlap) && ws[i].tokenEnd == ws[i].tokenStart + size < n
  {
    if ws != [] {
      var k := |ws| - 1;
      SafeEverywhereChain(bs, n, size, overlap, ws[..k], ws[k].tokenStart);
      SafeEverywhereNext(bs, n, size, overlap, ws[k], start);
      StrideNext(k, size - overlap);
      assert forall i | 0 <= i < k :: ws[i] == ws[..k][i];
    }
  }

  lemma SafeEverywhereNext(bs: seq<nat>, n: nat, size: nat, overlap: nat, w: TokenWindow, start: nat)
    requires (forall b: nat :: b <= n ==> b in bs) && overlap < size
    requires IsSafeWindow(bs, n, size, overlap, w) && Follows(bs, n, overlap, w, start)
    ensures w.tokenEnd == w.tokenStart + size < n && start == w.tokenStart + (size - overlap)
  {
    SafeEverywhereEnd(bs, n, size, overlap, w.tokenStart, w.tokenEnd);
    var x: nat := w.tokenEnd - overlap;
    assert x in bs;
  }

  /** Where the `i`-th window starts. */
  function Stride(i: nat, step: nat): nat {
    i * step
  }

  lemma StrideNext(i: nat, step: nat)
    ensures Stride(i + 1, step) == Stride(i, step) + step
  {
  }

  /** When every token position is safe the loop produces the textbook sliding window. */
  lemma ClosedForm(bs: seq<nat>, n: nat, size: nat, overlap: nat, ws: seq<TokenWindow>)
    requires (forall b: nat :: b <= n ==> b in bs) && overlap < size
    requires WindowChain(bs, n, size, overlap, ws)
    ensures forall i :: 0 <= i < |ws| ==>
      && ws[i].tokenStart == i * (size - overlap)
      && ws[i].tokenEnd == (if ws[i].tokenStart + size < n then ws[i].tokenStart + size else n)
      && (ws[i].tokenEnd == n <==> i == |ws| - 1)
  {
    var k := |ws| - 1;
    SafeEverywhereChain(bs, n, size, overlap, ws[..k], ws[k].tokenStart);
    SafeEverywhereEnd(bs, n, size, overlap, ws[k].tokenStart, ws[k].tokenEnd);
    assert forall i | 0 <= i < k :: ws[i] == ws[..k][i];
  }

  // ----- the text comes back

  /** The windows' contents, each without the characters its predecessor already gave. */
  function Reassembled(ws: seq<TokenWindow>): seq<Scalar> {
    if ws == [] then []
    else
      var k := |ws| - 1;
      var kept := if k == 0 then 0 else ws[k - 1].charEnd - ws[k].charStart;
      Reassembled(ws[..k]) + (if 0 <= kept <= |ws[k].content| then ws[k].content[kept..] else [])
  }

  lemma {:induction false} ReassembledPrefix(text: seq<Scalar>, pieces: seq<seq<Byte>>, bs: seq<nat>, size: nat,
                                             overlap: nat,
                                             ws: seq<TokenWindow>, start: nat)
    requires Join(pieces) == Encode(text) && bs == SafePositions(pieces, |pieces|)
    requires ws != [] && ContentsExact(text, pieces, ws)
    requires IsSafeWindow(bs, |pieces|, size, overlap, ws[|ws| - 1])
    requires ChainTo(bs, |pieces|, size, overlap, ws[..|ws| - 1], ws[|ws| - 1].tokenStart)
    ensures Reassembled(ws) == text[..ws[|ws| - 1].charEnd]
  {
    var k := |ws| - 1;
    if k == 0 {
      NothingBeforeStart(pieces);
    } else {
      assert ws[..k][..k - 1] == ws[..k - 1] && ws[..k][k - 1] == ws[k - 1];
      ReassembledPrefix(text, pieces, bs, size, overlap, ws[..k], ws[k].tokenStart);
      NeighboursMeet(text, pieces, bs, size, overlap, ws[k - 1], ws[k]);
      Glue(text, ws);
    }
  }

  lemma NeighboursMeet(text: seq<Scalar>, pieces: seq<seq<Byte>>, bs: seq<nat>, size: nat, overlap: nat,
                       v: TokenWindow, w: TokenWindow)
    requires Join(pieces) == Encode(text) && bs == SafePositions(pieces, |pieces|)
    requires ContentExact(text, pieces, v) && ContentExact(text, pieces, w)
    requires IsSafeWindow(bs, |pieces|, size, overlap, v) && IsSafeWindow(bs, |pieces|, size, overlap, w)
    requires Follows(bs, |pieces|, overlap, v, w.tokenStart)
    ensures w.charStart <= v.charEnd <= w.charEnd <= |text|
  {
    EndsAdvance(bs, |pieces|, size, overlap, v, w);
    CharsOrdered(text, pieces, w.tokenStart, v.tokenEnd, w.tokenEnd);
  }

  lemma CharsOrdered(text: seq<Scalar>, pieces: seq<seq<Byte>>, a: nat, b: nat, c: nat)
    requires Join(pieces) == Encode(text) && a <= b <= c <= |pieces|
    requires forall x :: x in {a, b, c} ==> x in SafePositions(pieces, |pieces|)
    ensures CharsBefore(pieces, a) <= CharsBefore(pieces, b) <= CharsBefore(pieces, c) <= |text|
  {
    SliceDecodes(text, pieces, a, b);
    SliceDecodes(text, pieces, b, c);
  }

  lemma Glue(text: seq<Scalar>, ws: seq<TokenWindow>)
    requires |ws| >= 2
    requires var v, w := ws[|ws| - 2], ws[|ws| - 1];
      w.charStart <= v.charEnd <= w.charEnd <= |text| && w.content == text[w.charStart..w.charEnd]
    requires Reassembled(ws[..|ws| - 1]) == text[..ws[|ws| - 2].charEnd]
    ensures Reassembled(ws) == text[..ws[|ws| - 1].charEnd]
  {
    var v, w := ws[|ws| - 2], ws[|ws| - 1];
    SlicesJoin(text, w.charStart, v.charEnd, w.charEnd);
  }

  lemma SlicesJoin<T>(s: seq<T>, a: nat, b: nat, c: nat)
    requires a <= b <= c <= |s|
    ensures b - a <= |s[a..c]| && s[..b] + s[a..c][b - a..] == s[..c]
  {
    assert s[a..c][b - a..] == s[b..c];
  }

  lemma NothingBeforeStart(pieces: seq<seq<Byte>>)
    ensures CharsBefore(pieces, 0) == 0
  {
    assert pieces[..0] == [];
  }

  /** Dropping each window's overlap with its predecessor and concatenating gives back the text. */
  lemma WindowsReassemble(text: seq<Scalar>, pieces: seq<seq<Byte>>, size: nat, overlap: nat, ws: seq<TokenWindow>)
    requires Join(pieces) == Encode(text) && IsWindowing(text, pieces, size, overlap, ws)
    ensures Reassembled(ws) == text
  {
    DecodeEncode(text);
    if pieces == [] {
      assert text == Decode(Join(pieces)).text == [];
    } else {
      var bs := SafePositions(pieces, |pieces|);
      ReassembledPrefix(text, pieces, bs, size, overlap, ws, 0);
      assert pieces[..|pieces|] == pieces;
      assert CharsBefore(pieces, |pieces|) == |text|;
      assert text[..|text|] == text;
    }
  }

  lemma {:induction false} ContentsPointwise(text: seq<Scalar>, pieces: seq<seq<Byte>>, ws: seq<TokenWindow>)
    requires ContentsExact(text, pieces, ws)
    ensures forall i :: 0 <= i < |ws| ==> ContentExact(text, pieces, ws[i])
  {
    if ws != [] {
      var k := |ws| - 1;
      ContentsPointwise(text, pieces, ws[..k]);
      assert forall i | 0 <= i < k :: ws[i] == ws[..k][i];
    }
  }

  /** In characters, too, the windows run from 0 to the end of the text without a gap. */
  lemma WindowsCoverText(text: seq<Scalar>, pieces: seq<seq<Byte>>, size: nat, overlap: nat, ws: seq<TokenWindow>)
    requires Join(pieces) == Encode(text) && pieces != [] && IsWindowing(text, pieces, size, overlap, ws)
    ensures ws != [] && ws[0].charStart == 0 && ws[|ws| - 1].charEnd == |text|
    ensures forall i, j :: 0 <= i < j < |ws| && j == i + 1 ==> ws[j].charStart <= ws[i].charEnd
  {
    var bs := SafePositions(pieces, |pieces|);
    WindowsCover(bs, |pieces|, size, overlap, ws);
    ContentsPointwise(text, pieces, ws);
    forall i, j | 0 <= i < j < |ws| && j == i + 1 ensures ws[j].charStart <= ws[i].charEnd {
      SliceDecodes(text, pieces, ws[j].tokenStart, ws[i].tokenEnd);
    }
    NothingBeforeStart(pieces);
    DecodeEncode(text);
    assert pieces[..|pieces|] == pieces;
  }

  /** Every character of the text lies in some window. */
  lemma CharacterCovered(text: seq<Scalar>, ws: seq<TokenWindow>, c: nat) returns (i: nat)
    requires ws != [] && ws[0].charStart == 0 && ws[|ws| - 1].charEnd == |text| && c < |text|
    requires forall i, j :: 0 <= i < j < |ws| && j == i + 1 ==> ws[j].charStart <= ws[i].charEnd
    ensures i < |ws| && ws[i].charStart <= c < ws[i].charEnd
  {
    i := 0;
    while ws[i].charEnd <= c
      invariant i < |ws| && ws[i].charStart <= c
      decreases |ws| - i
    {
      i := i + 1;
    }
  }

  // ----- the reference definition leaves no choice

  lemma WindowEndUnique(bs: seq<nat>, n: nat, size: nat, overlap: nat, start: nat, a: nat, b: nat)
    requires IsWindowEnd(bs, n, size, overlap, start, a) && IsWindowEnd(bs, n, size, overlap, start, b)
    ensures a == b
  {
  }

  lemma {:induction false} WindowUnique(bs: seq<nat>, n: nat, size: nat, overlap: nat, ws: seq<TokenWindow>,
                                        vs: seq<TokenWindow>, i: nat)
    requires WindowChain(bs, n, size, overlap, ws) && WindowChain(bs, n, size, overlap, vs)
    requires i < |ws| && i < |vs|
    ensures ws[i].tokenStart == vs[i].tokenStart && ws[i].tokenEnd == vs[i].tokenEnd
  {
    ChainSafe(bs, n, size, overlap, ws);
    ChainSafe(bs, n, size, overlap, vs);
    if i > 0 {
      WindowUnique(bs, n, size, overlap, ws, vs, i - 1);
      assert Follows(bs, n, overlap, ws[i - 1], ws[i].tokenStart) &&
        Follows(bs, n, overlap, vs[i - 1], vs[i].tokenStart);
    }
    WindowEndUnique(bs, n, size, overlap, ws[i].tokenStart, ws[i].tokenEnd, vs[i].tokenEnd);
  }

  lemma ChainSafe(bs: seq<nat>, n: nat, size: nat, overlap: nat, ws: seq<TokenWindow>)
    requires WindowChain(bs, n, size, overlap, ws)
    ensures ws[0].tokenStart == 0
    ensures forall i :: 0 <= i < |ws| ==>
      IsSafeWindow(bs, n, size, overlap, ws[i]) && (ws[i].tokenEnd == n <==> i == |ws| - 1)
    ensures forall i, j :: 0 <= i < j < |ws| && j == i + 1 ==> Follows(bs, n, overlap, ws[i], ws[j].tokenStart)
  {
    var k := |ws| - 1;
    ChainToPointwise(bs, n, size, overlap, ws[..k], ws[k].tokenStart);
    assert forall i | 0 <= i < k :: ws[i] == ws[..k][i];
  }

  /** The windows of a text are determined by the text, its tokens, the size and the overlap. */
  lemma WindowingUnique(text: seq<Scalar>, pieces: seq<seq<Byte>>, size: nat, overlap: nat, ws: seq<TokenWindow>,
                        vs: seq<TokenWindow>)
    requires IsWindowing(text, pieces, size, overlap, ws) && IsWindowing(text, pieces, size, overlap, vs)
    ensures ws == vs
  {
    if pieces != [] {
      var bs, n := SafePositions(pieces, |pieces|), |pieces|;
      ChainSafe(bs, n, size, overlap, ws);
      ChainSafe(bs, n, size, overlap, vs);
      ContentsPointwise(text, pieces, ws);
      ContentsPointwise(text, pieces, vs);
      var shorter := if |ws| < |vs| then |ws| - 1 else |vs| - 1;
      WindowUnique(bs, n, size, overlap, ws, vs, shorter);
      assert |ws| == |vs|;
      forall i | 0 <= i < |ws| ensures ws[i] == vs[i] {
        WindowUnique(bs, n, size, overlap, ws, vs, i);
      }
    }
  }
}
