/** Token windows cut on code-point boundaries (src/ragbench/chunking/tokenizer.py).
    The tokenizer is any function from a text to byte pieces: nothing else about it is assumed. */
module TokenWindows {
  import opened Results
  import opened Utf8

  type Tokenizer = seq<Scalar> -> seq<seq<Byte>>

  datatype TokenWindow = TokenWindow(
    content: seq<Scalar>, tokenStart: nat, tokenEnd: nat, charStart: nat, charEnd: nat)

  datatype WindowError = BadSize | UndecodableTokens | TokensDoNotReconstructText

  datatype SafeTable = SafeTable(offsets: seq<nat>, boundaries: seq<nat>, chars: map<nat, nat>)

  // ----- where a window may start or end

  function Join(pieces: seq<seq<Byte>>): seq<Byte> {
    if pieces == [] then [] else Join(pieces[..|pieces| - 1]) + pieces[|pieces| - 1]
  }

  /** Token positions at which the decoder holds no unfinished sequence, in order. */
  function SafePositions(pieces: seq<seq<Byte>>, n: nat): seq<nat>
    requires n <= |pieces|
  {
    if n == 0 then [0]
    else if Complete(Join(pieces[..n])) then SafePositions(pieces, n - 1) + [n]
    else SafePositions(pieces, n - 1)
  }

  lemma {:induction false} SafePositionsMembers(pieces: seq<seq<Byte>>, n: nat)
    requires n <= |pieces|
    ensures SafePositions(pieces, n) != [] && SafePositions(pieces, n)[0] == 0
    ensures StrictlyIncreasing(SafePositions(pieces, n))
    ensures forall i :: i in SafePositions(pieces, n) <==> 0 <= i <= n && Complete(Join(pieces[..i]))
  {
    if n > 0 {
      SafePositionsMembers(pieces, n - 1);
      var rest := SafePositions(pieces, n - 1);
      assert forall i | 0 <= i < |rest| :: rest[i] in rest;
    }
  }

  predicate StrictlyIncreasing(s: seq<nat>) {
    forall i, j :: 0 <= i < j < |s| ==> s[i] < s[j]
  }

  /** An ascending table of positions that begins at 0 and ends at `n`. */
  predicate Spans(bs: seq<nat>, n: nat) {
    StrictlyIncreasing(bs) && bs != [] && bs[0] == 0 && bs[|bs| - 1] == n
  }

  /** Characters completed by the first `i` tokens. */
  function CharsBefore(pieces: seq<seq<Byte>>, i: nat): nat
    requires i <= |pieces|
  {
    var d := Decode(Join(pieces[..i]));
    if d.Decoded? then |d.text| else 0
  }

  ghost predicate Tabulates(pieces: seq<seq<Byte>>, n: nat, t: SafeTable)
    requires n <= |pieces|
  {
    && |t.offsets| == n + 1
    && (forall i :: 0 <= i <= n ==> t.offsets[i] == |Join(pieces[..i])|)
    && t.boundaries == SafePositions(pieces, n)
    && (forall i :: i in t.chars <==> i in t.boundaries)
    && (forall i :: i in t.boundaries ==> i <= n && t.chars[i] == CharsBefore(pieces, i))
  }

  lemma {:induction false} JoinConcat(a: seq<seq<Byte>>, b: seq<seq<Byte>>)
    ensures Join(a + b) == Join(a) + Join(b)
    decreases |b|
  {
    if b == [] {
      assert a + b == a;
    } else {
      var last := |b| - 1;
      assert (a + b)[..|a + b| - 1] == a + b[..last];
      JoinConcat(a, b[..last]);
    }
  }

  lemma JoinSplit(pieces: seq<seq<Byte>>, i: nat, j: nat)
    requires i <= j <= |pieces|
    ensures Join(pieces[..j]) == Join(pieces[..i]) + Join(pieces[i..j])
  {
    assert pieces[..j] == pieces[..i] + pieces[i..j];
    JoinConcat(pieces[..i], pieces[i..j]);
  }

  /** What the decoder knows after the first `i` tokens. */
  function After(pieces: seq<seq<Byte>>, i: nat): Decoding
    requires i <= |pieces|
  {
    Decode(Join(pieces[..i]))
  }

  lemma AfterNext(pieces: seq<seq<Byte>>, i: nat)
    requires i < |pieces|
    ensures Join(pieces[..i + 1]) == Join(pieces[..i]) + pieces[i]
    ensures After(pieces, i + 1) == Resume(After(pieces, i), pieces[i])
  {
    assert pieces[..i + 1][..i] == pieces[..i];
    DecodeConcat(Join(pieces[..i]), pieces[i]);
  }

  lemma InvalidStays(pieces: seq<seq<Byte>>, i: nat)
    requires i <= |pieces| && After(pieces, i).Invalid?
    ensures Decode(Join(pieces)).Invalid?
  {
    JoinSplit(pieces, i, |pieces|);
    assert pieces[..|pieces|] == pieces;
    DecodeConcat(Join(pieces[..i]), Join(pieces[i..|pieces|]));
  }

  lemma TabulatesNext(pieces: seq<seq<Byte>>, i: nat, t: SafeTable, u: SafeTable)
    requires i < |pieces| && Tabulates(pieces, i, t)
    requires u.offsets == t.offsets + [t.offsets[i] + |pieces[i]|]
    requires Complete(Join(pieces[..i + 1])) ==>
      u.boundaries == t.boundaries + [i + 1] && u.chars == t.chars[i + 1 := CharsBefore(pieces, i + 1)]
    requires !Complete(Join(pieces[..i + 1])) ==> u.boundaries == t.boundaries && u.chars == t.chars
    ensures Tabulates(pieces, i + 1, u)
  {
    AfterNext(pieces, i);
    assert forall k | 0 <= k <= i + 1 :: u.offsets[k] == if k <= i then t.offsets[k] else t.offsets[i] + |pieces[i]|;
  }

  /** Feeding the decoder one more token. */
  lemma DecodeNext(pieces: seq<seq<Byte>>, i: nat, decoded: Decoding)
    requires i < |pieces| && After(pieces, i).Decoded? && decoded == Decode(After(pieces, i).pending + pieces[i])
    ensures decoded.Invalid? ==> After(pieces, i + 1).Invalid?
    ensures decoded.Decoded? ==>
      && After(pieces, i + 1).Decoded? && After(pieces, i + 1).pending == decoded.pending
      && CharsBefore(pieces, i + 1) == CharsBefore(pieces, i) + |decoded.text|
      && (Complete(Join(pieces[..i + 1])) <==> decoded.pending == [])
  {
    AfterNext(pieces, i);
  }

  /** The table of the first `i` tokens, the bytes the decoder holds, and the characters it gave. */
  ghost predicate Scanned(pieces: seq<seq<Byte>>, i: nat, t: SafeTable, pending: seq<Byte>, characters: nat) {
    && i <= |pieces| && Tabulates(pieces, i, t)
    && After(pieces, i).Decoded? && pending == After(pieces, i).pending && characters == CharsBefore(pieces, i)
  }

  lemma ScannedNext(pieces: seq<seq<Byte>>, i: nat, t: SafeTable, u: SafeTable, decoded: Decoding)
    requires i < |pieces| && After(pieces, i).Decoded?
    requires Scanned(pieces, i, t, After(pieces, i).pending, CharsBefore(pieces, i))
    requires decoded == Decode(After(pieces, i).pending + pieces[i]) && decoded.Decoded?
    requires u.offsets == t.offsets + [t.offsets[i] + |pieces[i]|]
    requires decoded.pending == [] ==>
      u.boundaries == t.boundaries + [i + 1] && u.chars == t.chars[i + 1 := CharsBefore(pieces, i) + |decoded.text|]
    requires decoded.pending != [] ==> u.boundaries == t.boundaries && u.chars == t.chars
    ensures Scanned(pieces, i + 1, u, decoded.pending, CharsBefore(pieces, i) + |decoded.text|)
  {
    DecodeNext(pieces, i, decoded);
    TabulatesNext(pieces, i, t, u);
  }

  method SafeTokenBoundaries(pieces: seq<seq<Byte>>) returns (r: Result<SafeTable, WindowError>)
    ensures r.Ok? <==> Complete(Join(pieces))
    ensures r.Ok? ==> Tabulates(pieces, |pieces|, r.value) && Spans(r.value.boundaries, |pieces|)
    ensures r.Err? ==> r.error == UndecodableTokens
  {
    var offsets: seq<nat>, boundaries: seq<nat>, chars: map<nat, nat> := [0], [0], map[0 := 0];
    var pending: seq<Byte>, characters: nat := [], 0;
    for index := 1 to |pieces| + 1
      invariant Scanned(pieces, index - 1, SafeTable(offsets, boundaries, chars), pending, characters)
    {
      var piece := pieces[index - 1];
      ghost var before := SafeTable(offsets, boundaries, chars);
      offsets := offsets + [offsets[|offsets| - 1] + |piece|];
      var decoded := Decode(pending + piece);
      if decoded.Invalid? {
        DecodeNext(pieces, index - 1, decoded);
        InvalidStays(pieces, index);
        return Err(UndecodableTokens);
      }
      characters := characters + |decoded.text|;
      pending := decoded.pending;
      if pending == [] {
        boundaries, chars := boundaries + [index], chars[index := characters];
      }
      ScannedNext(pieces, index - 1, before, SafeTable(offsets, boundaries, chars), decoded);
    }
    assert pieces[..|pieces|] == pieces;
    if pending != [] {
      return Err(UndecodableTokens);
    }
    SafePositionsMembers(pieces, |pieces|);
    return Ok(SafeTable(offsets, boundaries, chars));
  }

  /** The recorded positions are exactly the token positions on code-point boundaries of the text,
      each with the number of characters before it. */
  lemma SafePositionsExact(text: seq<Scalar>, pieces: seq<seq<Byte>>, i: nat)
    requires Join(pieces) == Encode(text) && i <= |pieces|
    ensures i in SafePositions(pieces, |pieces|)
       <==> exists k :: 0 <= k <= |text| && |Encode(text[..k])| == |Join(pieces[..i])|
    ensures i in SafePositions(pieces, |pieces|) ==>
      && CharsBefore(pieces, i) <= |text|
      && Join(pieces[..i]) == Encode(text[..CharsBefore(pieces, i)])
  {
    SafePositionsMembers(pieces, |pieces|);
    JoinSplit(pieces, i, |pieces|);
    assert pieces[..|pieces|] == pieces;
    PrefixExact(text, Join(pieces[..i]), Join(pieces[i..|pieces|]));
  }

  lemma PrefixExact(text: seq<Scalar>, head: seq<Byte>, tail: seq<Byte>)
    requires head + tail == Encode(text)
    ensures Complete(head) <==> exists k :: 0 <= k <= |text| && |Encode(text[..k])| == |head|
    ensures Complete(head) ==> |Decode(head).text| <= |text| && head == Encode(text[..|Decode(head).text|])
  {
    var d := Decode(head);
    if Complete(head) {
      CompletePrefix(text, head, tail);
      assert |Encode(text[..|d.text|])| == |head|;
    }
    forall k | 0 <= k <= |text| && |Encode(text[..k])| == |head| ensures Complete(head) {
      EncodeConcat(text[..k], text[k..]);
      assert text[..k] + text[k..] == text;
      assert head == (head + tail)[..|head|] == Encode(text[..k]);
      DecodeEncode(text[..k]);
    }
  }

  lemma CompletePrefix(text: seq<Scalar>, head: seq<Byte>, tail: seq<Byte>)
    requires head + tail == Encode(text) && Complete(head)
    ensures |Decode(head).text| <= |text| && head == Encode(text[..|Decode(head).text|])
  {
    DecodeEncode(text);
    DecodeConcat(head, tail);
    EncodeDecode(head);
    assert [] + tail == tail;
    var start := Decode(head).text;
    assert text == start + Decode(tail).text;
    assert text[..|start|] == start;
    assert Encode(start) + [] == Encode(start);
  }

  // ----- the reference definition of the windows

  /** `b` is the least safe position at or after `x`. */
  predicate IsFirstFrom(bs: seq<nat>, x: int, b: nat) {
    b in bs && x <= b && forall c :: c in bs && x <= c ==> b <= c
  }

  /** `b` is the greatest safe position at or before `x`. */
  predicate IsLastUpTo(bs: seq<nat>, x: int, b: nat) {
    b in bs && b <= x && forall c :: c in bs && c <= x ==> c <= b
  }

  /** Where the window starting at `start` ends. With `f` the first safe position after `start`, the
      next window advances exactly when the end is at least `f + overlap`; so the end is the last safe
      position within `size` tokens when that is far enough, and else the first one that is. */
  ghost predicate IsWindowEnd(bs: seq<nat>, n: nat, size: nat, overlap: nat, start: nat, end: nat) {
    if start + size >= n then end == n
    else exists f: nat, p: nat ::
      && IsFirstFrom(bs, start + 1, f)
      && IsLastUpTo(bs, start + size, p)
      && EndGiven(bs, n, overlap, f, p, end)
  }

  predicate EndGiven(bs: seq<nat>, n: nat, overlap: nat, f: nat, p: nat, end: nat) {
    if f + overlap <= p then end == p
    else if f + overlap <= n then IsFirstFrom(bs, f + overlap, end)
    else end == n
  }

  /** The windows run from 0 to `n`; each but the first starts at the last safe position that keeps
      `overlap` tokens of its predecessor. */
  ghost predicate WindowChain(bs: seq<nat>, n: nat, size: nat, overlap: nat, ws: seq<TokenWindow>) {
    && ws != []
    && IsSafeWindow(bs, n, size, overlap, ws[|ws| - 1])
    && ws[|ws| - 1].tokenEnd == n
    && ChainTo(bs, n, size, overlap, ws[..|ws| - 1], ws[|ws| - 1].tokenStart)
  }

  /** The windows so far, when the next one starts at `start`. */
  ghost predicate ChainTo(bs: seq<nat>, n: nat, size: nat, overlap: nat, ws: seq<TokenWindow>, start: nat) {
    if ws == [] then start == 0
    else
      var w := ws[|ws| - 1];
      && IsSafeWindow(bs, n, size, overlap, w)
      && Follows(bs, n, overlap, w, start)
      && ChainTo(bs, n, size, overlap, ws[..|ws| - 1], w.tokenStart)
  }

  ghost predicate IsSafeWindow(bs: seq<nat>, n: nat, size: nat, overlap: nat, w: TokenWindow) {
    && w.tokenStart in bs
    && w.tokenEnd in bs
    && w.tokenStart < w.tokenEnd
    && IsWindowEnd(bs, n, size, overlap, w.tokenStart, w.tokenEnd)
  }

  predicate Follows(bs: seq<nat>, n: nat, overlap: nat, w: TokenWindow, nextStart: nat) {
    && w.tokenEnd < n
    && w.tokenStart < nextStart
    && IsLastUpTo(bs, w.tokenEnd - overlap, nextStart)
  }

  ghost predicate ContentExact(text: seq<Scalar>, pieces: seq<seq<Byte>>, w: TokenWindow) {
    && w.tokenStart <= |pieces| && w.charStart == CharsBefore(pieces, w.tokenStart)
    && w.tokenEnd <= |pieces| && w.charEnd == CharsBefore(pieces, w.tokenEnd)
    && w.charStart <= w.charEnd <= |text|
    && w.content == text[w.charStart..w.charEnd]
  }

  ghost predicate ContentsExact(text: seq<Scalar>, pieces: seq<seq<Byte>>, ws: seq<TokenWindow>) {
    ws != [] ==> ContentExact(text, pieces, ws[|ws| - 1]) && ContentsExact(text, pieces, ws[..|ws| - 1])
  }

  predicate GoodSize(size: int, overlap: int) {
    0 <= overlap < size
  }

  ghost predicate IsWindowing(text: seq<Scalar>, pieces: seq<seq<Byte>>, size: nat, overlap: nat,
                              ws: seq<TokenWindow>) {
    if pieces == [] then ws == []
    else
      && WindowChain(SafePositions(pieces, |pieces|), |pieces|, size, overlap, ws)
      && ContentsExact(text, pieces, ws)
  }

  // ----- the windows themselves

  /** Number of elements of the ascending sequence `s` that are at most `x`. */
  function BisectRight(s: seq<nat>, x: int): (r: nat)
    requires StrictlyIncreasing(s)
    ensures r <= |s|
    ensures forall i :: 0 <= i < r ==> s[i] <= x
    ensures forall i :: r <= i < |s| ==> x < s[i]
  {
    if s == [] || x < s[0] then 0
    else
      var rest := BisectRight(s[1..], x);
      assert forall i | 1 <= i < |s| :: s[i] == s[1..][i - 1];
      1 + rest
  }

  lemma FirstAfter(bs: seq<nat>, x: int, r: nat)
    requires StrictlyIncreasing(bs) && r == BisectRight(bs, x) && r < |bs|
    ensures IsFirstFrom(bs, x + 1, bs[r])
  {
    assert bs[r] in bs;
  }

  lemma LastAt(bs: seq<nat>, x: int, k: int)
    requires StrictlyIncreasing(bs) && 0 <= k == BisectRight(bs, x) - 1
    ensures IsLastUpTo(bs, x, bs[k])
  {
    assert bs[k] in bs;
  }

  /** Where the search stops: at the last position within the size, or the first one far enough. */
  lemma SearchStops(bs: seq<nat>, n: nat, overlap: nat, next: nat, last: nat, k: nat)
    requires Spans(bs, n) && next <= k < |bs| && last < |bs|
    requires bs[next] + overlap <= bs[last] ==> k == last
    requires bs[last] < bs[next] + overlap ==> forall i :: 0 <= i < k ==> bs[i] < bs[next] + overlap
    requires bs[k] == n || next < BisectRight(bs, bs[k] - overlap)
    ensures EndGiven(bs, n, overlap, bs[next], bs[last], bs[k])
    ensures bs[k] < n ==> exists b :: b in bs && bs[next] <= b <= bs[k] - overlap
  {
    assert bs[k] in bs && bs[next] in bs;
  }

  method WindowEnd(bs: seq<nat>, n: nat, size: nat, overlap: nat, start: nat) returns (end: nat)
    requires Spans(bs, n)
    requires start in bs && start < n && overlap < size
    ensures end in bs && start < end && IsWindowEnd(bs, n, size, overlap, start, end)
    ensures end < n ==> exists b :: b in bs && start < b <= end - overlap
  {
    var nominal := if start + size <= n then start + size else n;
    if nominal == n {
      return n;
    }
    var next := BisectRight(bs, start);
    var endIndex := BisectRight(bs, nominal) - 1;
    ghost var f, p := bs[next], bs[endIndex];
    FirstAfter(bs, start, next);
    LastAt(bs, nominal, endIndex);
    ghost var last := endIndex;
    if endIndex < next {
      endIndex := next;
    }
    end := bs[endIndex];
    while end < n && BisectRight(bs, end - overlap) <= next
      invariant next <= endIndex < |bs| && end == bs[endIndex]
      invariant f + overlap <= p ==> endIndex == last
      invariant p < f + overlap ==> forall k :: 0 <= k < endIndex ==> bs[k] < f + overlap
      decreases |bs| - endIndex
    {
      endIndex := endIndex + 1;
      end := bs[endIndex];
    }
    SearchStops(bs, n, overlap, next, last, endIndex);
  }

  method SafeTokenWindows(text: seq<Scalar>, tokenize: Tokenizer, size: int, overlap: int)
    returns (r: Result<seq<TokenWindow>, WindowError>)
    ensures r == Err(BadSize) <==> !GoodSize(size, overlap)
    ensures GoodSize(size, overlap) ==>
      (r.Ok? <==> tokenize(text) == [] || Join(tokenize(text)) == Encode(text))
    ensures r.Ok? ==> IsWindowing(text, tokenize(text), size, overlap, r.value)
  {
    if size <= 0 || overlap < 0 || size <= overlap {
      return Err(BadSize);
    }
    var pieces := tokenize(text);
    if pieces == [] {
      return Ok([]);
    }
    var n := |pieces|;
    var table := SafeTokenBoundaries(pieces);
    if table.Err? {
      DecodeEncode(text);
      return Err(table.error);
    }
    var payload := Encode(text);
    assert pieces[..n] == pieces;
    if Join(pieces) != payload || n !in table.value.chars {
      return Err(TokensDoNotReconstructText);
    }
    var windows := WindowLoop(text, pieces, table.value, size, overlap);
    return Ok(windows);
  }

  method WindowLoop(text: seq<Scalar>, pieces: seq<seq<Byte>>, table: SafeTable, size: nat, overlap: nat)
    returns (windows: seq<TokenWindow>)
    requires Encode(text) == Join(pieces) && pieces != [] && overlap < size
    requires Tabulates(pieces, |pieces|, table) && Spans(table.boundaries, |pieces|)
    ensures WindowChain(table.boundaries, |pieces|, size, overlap, windows)
    ensures ContentsExact(text, pieces, windows)
  {
    var n, bs, payload := |pieces|, table.boundaries, Encode(text);
    windows := [];
    var start := 0;
    while start < n
      invariant start < n && start in bs
      invariant ChainTo(bs, n, size, overlap, windows, start)
      invariant ContentsExact(text, pieces, windows)
      decreases n - start
    {
      var end := WindowEnd(bs, n, size, overlap, start);
      var window := Cut(text, pieces, table, payload, start, end);
      ghost var before := windows;
      windows := windows + [window];
      assert windows[..|windows| - 1] == before;
      if end == n {
        break;
      }
      start := NextStart(bs, n, overlap, window);
    }
  }

  method NextStart(bs: seq<nat>, n: nat, overlap: nat, w: TokenWindow) returns (start: nat)
    requires Spans(bs, n) && w.tokenEnd < n
    requires exists b :: b in bs && w.tokenStart < b <= w.tokenEnd - overlap
    ensures start in bs && start < n && Follows(bs, n, overlap, w, start)
  {
    var nextStart := BisectRight(bs, w.tokenEnd - overlap) - 1;
    if bs[nextStart] <= w.tokenStart {
      assert false;  // "safe tokenizer window made no progress" is unreachable
    }
    start := bs[nextStart];
  }

  method Cut(text: seq<Scalar>, pieces: seq<seq<Byte>>, table: SafeTable, payload: seq<Byte>, start: nat, end: nat)
    returns (w: TokenWindow)
    requires payload == Encode(text) == Join(pieces) && Tabulates(pieces, |pieces|, table)
    requires start in table.boundaries && end in table.boundaries && start < end
    ensures w.tokenStart == start && w.tokenEnd == end
    ensures ContentExact(text, pieces, w)
  {
    SliceDecodes(text, pieces, start, end);
    var decoded := Decode(payload[table.offsets[start]..table.offsets[end]]);
    w := TokenWindow(decoded.text, start, end, table.chars[start], table.chars[end]);
  }

  /** The bytes between two safe positions are the encoding of the characters between them. */
  lemma SliceDecodes(text: seq<Scalar>, pieces: seq<seq<Byte>>, start: nat, end: nat)
    requires Join(pieces) == Encode(text) && start <= end <= |pieces|
    requires start in SafePositions(pieces, |pieces|) && end in SafePositions(pieces, |pieces|)
    ensures |Join(pieces[..start])| <= |Join(pieces[..end])| <= |Encode(text)|
    ensures CharsBefore(pieces, start) <= CharsBefore(pieces, end) <= |text|
    ensures Decode(Encode(text)[|Join(pieces[..start])|..|Join(pieces[..end])|])
         == Decoded(text[CharsBefore(pieces, start)..CharsBefore(pieces, end)], [])
  {
    SafePositionsExact(text, pieces, start);
    SafePositionsExact(text, pieces, end);
    JoinSplit(pieces, start, end);
    JoinSplit(pieces, end, |pieces|);
    assert pieces[..|pieces|] == pieces;
    var a, b := CharsBefore(pieces, start), CharsBefore(pieces, end);
    var head, middle := Join(pieces[..start]), Join(pieces[start..end]);
    assert Encode(text)[|head|..|head + middle|] == middle;
    MiddleDecodes(text, a, b, head, middle);
  }

  lemma MiddleDecodes(text: seq<Scalar>, a: nat, b: nat, head: seq<Byte>, middle: seq<Byte>)
    requires a <= |text| && b <= |text|
    requires head == Encode(text[..a]) && head + middle == Encode(text[..b])
    ensures a <= b && Decode(middle) == Decoded(text[a..b], [])
  {
    DecodeConcat(head, middle);
    DecodeEncode(text[..a]);
    DecodeEncode(text[..b]);
    assert [] + middle == middle;
    var d := Decode(middle);
    assert text[..a] + d.text == text[..b];
    assert d.text == (text[..a] + d.text)[a..] == text[..b][a..];
  }
}
