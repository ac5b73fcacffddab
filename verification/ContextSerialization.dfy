/** Serializing retrieved evidence into a token-bounded context (src/ragbench/rag/context.py): guarded JSON
    records between sentinels, the reader that undoes it, and the budgeted prefix. */
module ContextSerialization {
  import opened Json
  import opened Results

  const OPEN: string := "<UNTRUSTED_DOCUMENT>\n"
  const CLOSE: string := "\n</UNTRUSTED_DOCUMENT>"
  const SEPARATOR: string := "\n"

  /** A retrieved chunk; rank and score only decide the order it arrives in. */
  datatype Chunk = Chunk(
    chunkId: string, documentId: string, title: string, pageStart: nat, pageEnd: nat, section: seq<string>,
      content: string)

  datatype Citation = Citation(id: string, chunk: Chunk)

  // ----- one record

  function Texts(ss: seq<string>): (texts: seq<Json>)
    ensures |texts| == |ss| && forall k :: 0 <= k < |ss| ==> texts[k] == Text(ss[k])
  {
    seq(|ss|, k requires 0 <= k < |ss| => Text(ss[k]))
  }

  /** The record, keys sorted. */
  function Payload(c: Citation): Json {
    Record([
      Field("chunk_id", Text(c.chunk.chunkId)),
      Field("citation_id", Text(c.id)),
      Field("content", Text(c.chunk.content)),
      Field("content_is_untrusted_data", True),
      Field("document_id", Text(c.chunk.documentId)),
      Field("document_title", Text(c.chunk.title)),
      Field("page_range", Record([Field("end", Number(c.chunk.pageEnd)), Field("start", Number(c.chunk.pageStart))])),
      Field("section", List(Texts(c.chunk.section)))
    ])
  }

  function Serialize(c: Citation): string {
    OPEN + Guarded(Print(Payload(c))) + CLOSE
  }

  // ----- framing

  function Join(parts: seq<string>): string {
    if parts == [] then "" else if |parts| == 1 then parts[0] else parts[0] + (SEPARATOR + Join(parts[1..]))
  }

  function Framed(bodies: seq<string>): (framed: seq<string>)
    ensures |framed| == |bodies| && forall k :: 0 <= k < |bodies| ==> framed[k] == OPEN + bodies[k] + CLOSE
  {
    seq(|bodies|, k requires 0 <= k < |bodies| => OPEN + bodies[k] + CLOSE)
  }

  /** The characters before the first angle bracket. */
  function BeforeMarkup(s: string): (body: string)
    ensures |body| <= |s| && body == s[..|body|]
    ensures forall k :: 0 <= k < |body| ==> body[k] != '<'
    ensures |body| < |s| ==> s[|body|] == '<'
  {
    if s == "" || s[0] == '<' then ""
    else
      var rest := BeforeMarkup(s[1..]);
      assert s == [s[0]] + s[1..];
      [s[0]] + rest
  }

  /** Splits a context at its sentinels; None when it is not made of framed bodies. */
  function Unframe(s: string): Option<seq<string>>
    decreases |s|
  {
    if s == "" then Some([])
    else if !(OPEN <= s) then None
    else
      var inside := s[|OPEN|..];
      var upTo := BeforeMarkup(inside);
      if upTo == "" || upTo[|upTo| - 1] != '\n' then None
      else
        var body, close := upTo[..|upTo| - 1], inside[|upTo| - 1..];
        if !(CLOSE <= close) then None
        else
          var after := close[|CLOSE|..];
          if after == "" then Some([body])
          else if after[0] != '\n' || after == "\n" then None
          else
            match Unframe(after[1..])
            case None => None
            case Some(bodies) => Some([body] + bodies)
  }

  predicate NoMarkup(s: string) {
    '<' !in s
  }

  lemma {:induction false} BeforeMarkupExact(body: string, rest: string)
    requires NoMarkup(body) && rest != "" && rest[0] == '<'
    ensures BeforeMarkup(body + rest) == body
  {
    if body == "" {
      assert body + rest == rest;
    } else {
      assert (body + rest)[1..] == body[1..] + rest;
      BeforeMarkupExact(body[1..], rest);
    }
  }

  /** One framed body is taken off the front. */
  lemma UnframeOne(body: string, after: string)
    requires NoMarkup(body)
    ensures var s := OPEN + body + CLOSE + after;
      && s != "" && OPEN <= s
      && BeforeMarkup(s[|OPEN|..]) == body + "\n"
      && s[|OPEN|..][|body|..] == CLOSE + after
  {
    var s := OPEN + body + CLOSE + after;
    var tail := CLOSE[1..] + after;
    assert CLOSE == "\n" + CLOSE[1..];
    assert s[|OPEN|..] == (body + "\n") + tail;
    BeforeMarkupExact(body + "\n", tail);
    assert s[|OPEN|..][|body|..] == CLOSE + after;
  }

  /** What follows the first framed body. */
  function AfterFirst(bodies: seq<string>): string
    requires bodies != []
  {
    if |bodies| == 1 then "" else SEPARATOR + Join(Framed(bodies[1..]))
  }

  lemma JoinShape(bodies: seq<string>)
    requires bodies != []
    ensures Join(Framed(bodies)) == OPEN + bodies[0] + CLOSE + AfterFirst(bodies)
  {
    assert Framed(bodies)[1..] == Framed(bodies[1..]);
  }

  lemma OneBody(body: string)
    requires NoMarkup(body)
    ensures Unframe(Join(Framed([body]))) == Some([body])
  {
    JoinShape([body]);
    UnframeStep(body, "");
  }

  lemma ManyBodies(bodies: seq<string>)
    requires |bodies| > 1 && NoMarkup(bodies[0]) && Unframe(Join(Framed(bodies[1..]))) == Some(bodies[1..])
    ensures Unframe(Join(Framed(bodies))) == Some([bodies[0]] + bodies[1..])
  {
    var after := AfterFirst(bodies);
    JoinShape(bodies);
    JoinNonEmpty(Framed(bodies[1..]));
    assert after[1..] == Join(Framed(bodies[1..]));
    UnframeStep(bodies[0], after);
  }

  lemma {:induction false} UnframeJoin(bodies: seq<string>)
    requires forall b :: b in bodies ==> NoMarkup(b)
    ensures Unframe(Join(Framed(bodies))) == Some(bodies)
  {
    if |bodies| == 1 {
      OneBody(bodies[0]);
      assert bodies == [bodies[0]];
    } else if |bodies| > 1 {
      UnframeJoin(bodies[1..]);
      ManyBodies(bodies);
      assert bodies == [bodies[0]] + bodies[1..];
    }
  }

  lemma JoinNonEmpty(parts: seq<string>)
    requires parts != [] && parts[0] != ""
    ensures Join(parts) != ""
  {
  }

  lemma UnframeStep(body: string, after: string)
    requires NoMarkup(body) && (after != "" ==> after[0] == '\n' && after != "\n")
    ensures Unframe(OPEN + body + CLOSE + after) ==
      if after == "" then Some([body])
      else match Unframe(after[1..]) case None => None case Some(bodies) => Some([body] + bodies)
  {
    UnframeOne(body, after);
    assert (CLOSE + after)[|CLOSE|..] == after;
    assert (body + "\n")[..|body|] == body;
  }

  // ----- reading a context back

  function Bodies(cs: seq<Citation>): (bodies: seq<string>)
    ensures |bodies| == |cs| && forall k :: 0 <= k < |cs| ==> bodies[k] == Guarded(Print(Payload(cs[k])))
  {
    seq(|cs|, k requires 0 <= k < |cs| => Guarded(Print(Payload(cs[k]))))
  }

  function Serialized(cs: seq<Citation>): (texts: seq<string>)
    ensures |texts| == |cs| && forall k :: 0 <= k < |cs| ==> texts[k] == Serialize(cs[k])
  {
    seq(|cs|, k requires 0 <= k < |cs| => Serialize(cs[k]))
  }

  function Context(cs: seq<Citation>): string {
    Join(Serialized(cs))
  }

  lemma SerializedFramed(cs: seq<Citation>)
    ensures Serialized(cs) == Framed(Bodies(cs))
  {
    forall k | 0 <= k < |cs| ensures Serialized(cs)[k] == Framed(Bodies(cs))[k] {
      assert Serialize(cs[k]) == OPEN + Bodies(cs)[k] + CLOSE;
    }
  }

  function ReadAll(bodies: seq<string>): Option<seq<Json>> {
    if bodies == [] then Some([])
    else
      match Parse(bodies[0])
      case None => None
      case Some((v, rest)) =>
        if rest != "" then None
        else
          match ReadAll(bodies[1..])
          case None => None
          case Some(vs) => Some([v] + vs)
  }

  /** Splits at the sentinels and decodes each part. */
  function ReadContext(text: string): Option<seq<Json>> {
    match Unframe(text)
    case None => None
    case Some(bodies) => ReadAll(bodies)
  }

  function Payloads(cs: seq<Citation>): (vs: seq<Json>)
    ensures |vs| == |cs| && forall k :: 0 <= k < |cs| ==> vs[k] == Payload(cs[k])
  {
    seq(|cs|, k requires 0 <= k < |cs| => Payload(cs[k]))
  }

  lemma ReadOne(bodies: seq<string>, v: Json, vs: seq<Json>)
    requires bodies != [] && Parse(bodies[0]) == Some((v, "")) && ReadAll(bodies[1..]) == Some(vs)
    ensures ReadAll(bodies) == Some([v] + vs)
  {
  }

  lemma {:induction false} BodiesRead(cs: seq<Citation>)
    ensures ReadAll(Bodies(cs)) == Some(Payloads(cs))
  {
    if cs != [] {
      BodiesRead(cs[1..]);
      BodyReads(cs[0]);
      BodiesTail(cs);
      PayloadsTail(cs);
      ReadOne(Bodies(cs), Payloads(cs)[0], Payloads(cs[1..]));
    }
  }

  lemma BodiesTail(cs: seq<Citation>)
    requires cs != []
    ensures Bodies(cs)[1..] == Bodies(cs[1..])
  {
    forall k | 0 <= k < |cs| - 1 ensures Bodies(cs)[1..][k] == Bodies(cs[1..])[k] {
      assert cs[1..][k] == cs[k + 1];
    }
  }

  lemma PayloadsTail(cs: seq<Citation>)
    requires cs != []
    ensures Payloads(cs) == [Payloads(cs)[0]] + Payloads(cs[1..])
  {
    forall k | 1 <= k < |cs| ensures Payloads(cs)[k] == Payloads(cs[1..])[k - 1] {
      assert cs[1..][k - 1] == cs[k];
    }
  }

  lemma BodyReads(c: Citation)
    ensures Parse(Guarded(Print(Payload(c)))) == Some((Payload(c), ""))
  {
    ParseRound(Payload(c), "");
    assert Guarded(Print(Payload(c))) + "" == Guarded(Print(Payload(c)));
  }

  /** A context splits at its sentinels in one way only, and decoding the parts gives back every record,
      whatever its texts contain. */
  lemma ContextReads(cs: seq<Citation>)
    ensures ReadContext(Context(cs)) == Some(Payloads(cs))
  {
    forall b | b in Bodies(cs) ensures NoMarkup(b) {
      var k :| 0 <= k < |cs| && Bodies(cs)[k] == b;
      GuardedIsPlain(Print(Payload(cs[k])));
    }
    UnframeJoin(Bodies(cs));
    BodiesRead(cs);
    SerializedFramed(cs);
  }

  // ----- what a record says

  /** The value under a name in a decoded record; the last one counts. */
  function Lookup(v: Json, name: string): Option<Json> {
    if v.Record? then LookupIn(v.fields, name) else None
  }

  function LookupIn(fields: seq<Field>, name: string): Option<Json> {
    if fields == [] then None
    else if fields[|fields| - 1].key == name then Some(fields[|fields| - 1].value)
    else LookupIn(fields[..|fields| - 1], name)
  }

  /** A list of these texts. */
  predicate ListsTexts(v: Json, texts: seq<string>) {
    v.List? && |v.items| == |texts| && forall k :: 0 <= k < |texts| ==> v.items[k] == Text(texts[k])
  }

  /** The record names its chunk's identity, title, pages, section and content, each under its own name. */
  predicate SaysAll(v: Json, c: Citation) {
    && Lookup(v, "citation_id") == Some(Text(c.id))
    && Lookup(v, "chunk_id") == Some(Text(c.chunk.chunkId))
    && Lookup(v, "document_id") == Some(Text(c.chunk.documentId))
    && Lookup(v, "document_title") == Some(Text(c.chunk.title))
    && Lookup(v, "content") == Some(Text(c.chunk.content))
    && Lookup(v, "content_is_untrusted_data") == Some(True)
    && SaysPages(v, c.chunk.pageStart, c.chunk.pageEnd)
    && Lookup(v, "section").Some? && ListsTexts(Lookup(v, "section").value, c.chunk.section)
  }

  predicate SaysPages(v: Json, start: nat, end: nat) {
    var range := Lookup(v, "page_range");
    && range.Some?
    && Lookup(range.value, "start") == Some(Number(start))
    && Lookup(range.value, "end") == Some(Number(end))
  }

  predicate DistinctKeys(fields: seq<Field>) {
    forall i, j :: 0 <= i < j < |fields| ==> fields[i].key != fields[j].key
  }

  /** With distinct names, what stands under a name is what is looked up. */
  lemma {:induction false} LookupFinds(fields: seq<Field>, k: nat)
    requires DistinctKeys(fields) && k < |fields|
    ensures LookupIn(fields, fields[k].key) == Some(fields[k].value)
  {
    if k < |fields| - 1 {
      LookupFinds(fields[..|fields| - 1], k);
    }
  }

  lemma PagesSaid(start: nat, end: nat)
    ensures var range := Record([Field("end", Number(end)), Field("start", Number(start))]);
      Lookup(range, "start") == Some(Number(start)) && Lookup(range, "end") == Some(Number(end))
  {
    var fields := [Field("end", Number(end)), Field("start", Number(start))];
    assert fields[0].key[0] != fields[1].key[0];
    LookupFinds(fields, 0);
    LookupFinds(fields, 1);
  }

  lemma KeysDistinct(c: Citation)
    ensures |Payload(c).fields| == 8 && DistinctKeys(Payload(c).fields)
  {
    var f := Payload(c).fields;
    assert |f[0].key| == 8 && |f[1].key| == 11 && |f[2].key| == 7 && |f[3].key| == 25;
    assert |f[4].key| == 11 && |f[5].key| == 14 && |f[6].key| == 10 && |f[7].key| == 7;
    assert f[1].key[0] == 'c' && f[4].key[0] == 'd' && f[2].key[0] == 'c' && f[7].key[0] == 's';
  }

  lemma PayloadSaysAll(c: Citation)
    ensures SaysAll(Payload(c), c)
  {
    var f := Payload(c).fields;
    KeysDistinct(c);
    LookupFinds(f, 0);
    LookupFinds(f, 1);
    LookupFinds(f, 2);
    LookupFinds(f, 3);
    LookupFinds(f, 4);
    LookupFinds(f, 5);
    LookupFinds(f, 6);
    LookupFinds(f, 7);
    PagesSaid(c.chunk.pageStart, c.chunk.pageEnd);
  }

  /** A reader of the text finds one record per citation, in order, and in each its chunk's fields under their
      names. */
  predicate ReadsAs(text: string, cs: seq<Citation>) {
    var read := ReadContext(text);
    read.Some? && |read.value| == |cs| && forall k :: 0 <= k < |cs| ==> SaysAll(read.value[k], cs[k])
  }

  /** Whatever the texts contain. */
  lemma ContextSaysAll(cs: seq<Citation>)
    ensures ReadsAs(Context(cs), cs)
  {
    ContextReads(cs);
    forall k | 0 <= k < |cs| ensures SaysAll(Payloads(cs)[k], cs[k]) {
      PayloadSaysAll(cs[k]);
    }
  }

  lemma PayloadInjective(a: Citation, b: Citation)
    requires Payload(a) == Payload(b)
    ensures a == b
  {
    assert Payload(a).fields[7].value.items == Payload(b).fields[7].value.items;
    assert Texts(a.chunk.section) == Texts(b.chunk.section);
    forall k | 0 <= k < |a.chunk.section| ensures k < |b.chunk.section| && a.chunk.section[k] == b.chunk.section[k] {
      assert Texts(a.chunk.section)[k] == Texts(b.chunk.section)[k];
    }
    assert a.chunk.section == b.chunk.section;
    var f, g := Payload(a).fields, Payload(b).fields;
    assert f[0] == g[0] && f[1] == g[1] && f[2] == g[2] && f[4] == g[4] && f[5] == g[5] && f[6] == g[6];
    assert f[6].value.fields[0] == g[6].value.fields[0] && f[6].value.fields[1] == g[6].value.fields[1];
  }

  /** Different evidence never serializes to the same context. */
  lemma ContextUnambiguous(a: seq<Citation>, b: seq<Citation>)
    requires Context(a) == Context(b)
    ensures a == b
  {
    ContextReads(a);
    ContextReads(b);
    forall k | 0 <= k < |a| ensures k < |b| && a[k] == b[k] {
      assert Payloads(a)[k] == Payloads(b)[k];
      PayloadInjective(a[k], b[k]);
    }
    assert |Payloads(a)| == |Payloads(b)|;
  }

  // ----- duplicates

  predicate HasId(chunks: seq<Chunk>, id: string) {
    exists c :: c in chunks && c.chunkId == id
  }

  /** The first chunk of every identifier. */
  function Unique(ordered: seq<Chunk>): seq<Chunk> {
    if ordered == [] then []
    else
      var before, last := Unique(ordered[..|ordered| - 1]), ordered[|ordered| - 1];
      if HasId(ordered[..|ordered| - 1], last.chunkId) then before else before + [last]
  }

  /** Two chunks have one identifier and different sources. */
  ghost predicate Conflicting(ordered: seq<Chunk>) {
    exists i, j :: 0 <= i < j < |ordered| && ordered[i].chunkId == ordered[j].chunkId && ordered[i] != ordered[j]
  }

  ghost predicate Repeated(ordered: seq<Chunk>, id: string) {
    exists i, j :: 0 <= i < j < |ordered| && ordered[i].chunkId == id && ordered[j].chunkId == id
  }

  /** What the loop has seen: every chunk so far, under its identifier. */
  ghost predicate SeenAll(ordered: seq<Chunk>, seen: map<string, Chunk>) {
    && (forall i :: 0 <= i < |ordered| ==> ordered[i].chunkId in seen && seen[ordered[i].chunkId] == ordered[i])
    && (forall id :: id in seen ==> HasId(ordered, id))
  }

  ghost predicate AreDuplicates(ordered: seq<Chunk>, duplicates: set<string>) {
    forall id :: id in duplicates <==> Repeated(ordered, id)
  }

  /** What the loop has after these chunks. */
  ghost predicate Scanned(ordered: seq<Chunk>, seen: map<string, Chunk>, unique: seq<Chunk>, duplicates: set<string>) {
    SeenAll(ordered, seen) && unique == Unique(ordered) && AreDuplicates(ordered, duplicates)
  }

  method Deduplicate(ordered: seq<Chunk>) returns (conflict: bool, unique: seq<Chunk>, duplicates: set<string>)
    ensures conflict <==> Conflicting(ordered)
    ensures !conflict ==> unique == Unique(ordered) && AreDuplicates(ordered, duplicates)
  {
    conflict, unique, duplicates := false, [], {};
    var seen: map<string, Chunk> := map[];
    for n := 0 to |ordered|
      invariant Scanned(ordered[..n], seen, unique, duplicates)
    {
      var row := ordered[n];
      ScannedNext(ordered, n, seen, unique, duplicates);
      if row.chunkId in seen {
        if seen[row.chunkId] != row {
          conflict := true;
          return;
        }
        duplicates := duplicates + {row.chunkId};
        continue;
      }
      seen := seen[row.chunkId := row];
      unique := unique + [row];
    }
    assert ordered[..|ordered|] == ordered;
    SeenAgree(ordered, seen);
  }

  lemma ScannedNext(ordered: seq<Chunk>, n: nat, seen: map<string, Chunk>, unique: seq<Chunk>, duplicates: set<string>)
    requires n < |ordered| && Scanned(ordered[..n], seen, unique, duplicates)
    ensures ordered[n].chunkId in seen && seen[ordered[n].chunkId] != ordered[n] ==> Conflicting(ordered)
    ensures ordered[n].chunkId in seen && seen[ordered[n].chunkId] == ordered[n] ==>
      Scanned(ordered[..n + 1], seen, unique, duplicates + {ordered[n].chunkId})
    ensures ordered[n].chunkId !in seen ==>
      Scanned(ordered[..n + 1], seen[ordered[n].chunkId := ordered[n]], unique + [ordered[n]], duplicates)
  {
    var before, row := ordered[..n], ordered[n];
    assert ordered[..n + 1] == before + [row];
    if row.chunkId !in seen {
      ScannedFresh(before, row, seen, unique, duplicates);
    } else if seen[row.chunkId] == row {
      ScannedAgain(before, row, seen, unique, duplicates);
    } else {
      ConflictFound(ordered, n, seen);
    }
  }

  lemma ScannedAgain(before: seq<Chunk>, row: Chunk, seen: map<string, Chunk>, unique: seq<Chunk>,
                     duplicates: set<string>)
    requires Scanned(before, seen, unique, duplicates) && row.chunkId in seen && seen[row.chunkId] == row
    ensures Scanned(before + [row], seen, unique, duplicates + {row.chunkId})
  {
    SeenNext(before, seen, row);
    UniqueNext(before, row);
    DuplicatesNext(before, duplicates, row);
  }

  lemma ScannedFresh(before: seq<Chunk>, row: Chunk, seen: map<string, Chunk>, unique: seq<Chunk>,
                     duplicates: set<string>)
    requires Scanned(before, seen, unique, duplicates) && row.chunkId !in seen
    ensures Scanned(before + [row], seen[row.chunkId := row], unique + [row], duplicates)
  {
    SeenNext(before, seen, row);
    UniqueNext(before, row);
    DuplicatesNext(before, duplicates, row);
  }

  lemma UniqueNext(ordered: seq<Chunk>, row: Chunk)
    ensures Unique(ordered + [row]) == if HasId(ordered, row.chunkId) then Unique(ordered) else Unique(ordered) + [row]
  {
    assert (ordered + [row])[..|ordered|] == ordered;
  }

  lemma DuplicatesNext(ordered: seq<Chunk>, duplicates: set<string>, row: Chunk)
    requires AreDuplicates(ordered, duplicates)
    ensures AreDuplicates(ordered + [row],
                          if HasId(ordered, row.chunkId) then duplicates + {row.chunkId} else duplicates)
  {
    RepeatedNext(ordered, row);
  }

  lemma SeenAgree(ordered: seq<Chunk>, seen: map<string, Chunk>)
    requires SeenAll(ordered, seen)
    ensures !Conflicting(ordered)
  {
  }

  lemma SeenNext(ordered: seq<Chunk>, seen: map<string, Chunk>, row: Chunk)
    requires SeenAll(ordered, seen)
    ensures row.chunkId in seen <==> HasId(ordered, row.chunkId)
    ensures row.chunkId in seen && seen[row.chunkId] == row ==> SeenAll(ordered + [row], seen)
    ensures row.chunkId !in seen ==> SeenAll(ordered + [row], seen[row.chunkId := row])
  {
    var longer := ordered + [row];
    forall id | HasId(ordered, id) ensures HasId(longer, id) {
      var c :| c in ordered && c.chunkId == id;
      assert c in longer;
    }
    assert row in longer && HasId(longer, row.chunkId);
  }

  lemma RepeatedNext(ordered: seq<Chunk>, row: Chunk)
    ensures forall id :: Repeated(ordered + [row], id) <==>
      Repeated(ordered, id) || (id == row.chunkId && HasId(ordered, id))
  {
    var longer := ordered + [row];
    forall id | Repeated(ordered, id) ensures Repeated(longer, id) {
      var i, j :| 0 <= i < j < |ordered| && ordered[i].chunkId == id && ordered[j].chunkId == id;
      assert longer[i].chunkId == id && longer[j].chunkId == id;
    }
    if HasId(ordered, row.chunkId) {
      var c :| c in ordered && c.chunkId == row.chunkId;
      var i :| 0 <= i < |ordered| && ordered[i] == c;
      assert longer[i].chunkId == row.chunkId && longer[|ordered|].chunkId == row.chunkId;
    }
    forall id | Repeated(longer, id) ensures Repeated(ordered, id) || (id == row.chunkId && HasId(ordered, id)) {
      var i, j :| 0 <= i < j < |longer| && longer[i].chunkId == id && longer[j].chunkId == id;
      assert longer[i] in ordered;
      if j < |ordered| {
        assert ordered[i].chunkId == id && ordered[j].chunkId == id;
      }
    }
  }

  lemma ConflictFound(ordered: seq<Chunk>, n: nat, seen: map<string, Chunk>)
    requires n < |ordered| && SeenAll(ordered[..n], seen)
    requires ordered[n].chunkId in seen && seen[ordered[n].chunkId] != ordered[n]
    ensures Conflicting(ordered)
  {
    assert HasId(ordered[..n], ordered[n].chunkId);
    var c :| c in ordered[..n] && c.chunkId == ordered[n].chunkId;
    var i :| 0 <= i < n && ordered[..n][i] == c;
    assert ordered[i] == c;
  }

  // ----- the budgeted prefix

  type Counter = string -> nat

  function CitationId(index: nat): string {
    "C" + Digits(index)
  }

  /** A label is a C and the number in decimal. */
  lemma CitationLabel(index: nat)
    ensures CitationId(index)[0] == 'C' && ReadDigits(CitationId(index)[1..], 0) == (index, "")
  {
    DigitsRound(index, "");
    assert Digits(index) + "" == Digits(index) && CitationId(index)[1..] == Digits(index);
  }

  /** The first `n` chunks with their citations, counted from 1. */
  function Cited(unique: seq<Chunk>, n: nat): (cs: seq<Citation>)
    requires n <= |unique|
    ensures |cs| == n && forall k :: 0 <= k < n ==> cs[k] == Citation(CitationId(k + 1), unique[k])
  {
    seq(n, k requires 0 <= k < n => Citation(CitationId(k + 1), unique[k]))
  }

  predicate Fits(unique: seq<Chunk>, count: Counter, budget: nat, n: nat)
    requires n <= |unique|
  {
    count(Context(Cited(unique, n))) <= budget
  }

  function ChunkIds(chunks: seq<Chunk>): (ids: seq<string>)
    ensures |ids| == |chunks| && forall k :: 0 <= k < |chunks| ==> ids[k] == chunks[k].chunkId
  {
    seq(|chunks|, k requires 0 <= k < |chunks| => chunks[k].chunkId)
  }

  predicate FitsUpTo(unique: seq<Chunk>, count: Counter, budget: nat, n: nat)
    requires n <= |unique|
  {
    forall m :: 1 <= m <= n ==> Fits(unique, count, budget, m)
  }

  lemma FitsNext(unique: seq<Chunk>, count: Counter, budget: nat, n: nat, text: string)
    requires n < |unique| && FitsUpTo(unique, count, budget, n) && text == Context(Cited(unique, n + 1))
    ensures Fits(unique, count, budget, n + 1) <==> count(text) <= budget
    ensures count(text) <= budget ==> FitsUpTo(unique, count, budget, n + 1)
  {
  }

  /** Adds records while the text with the next one still fits. */
  method Include(unique: seq<Chunk>, count: Counter, budget: nat)
    returns (included: seq<Citation>, truncated: seq<string>)
    ensures var n := |included|;
      && n <= |unique| && included == Cited(unique, n)
      && FitsUpTo(unique, count, budget, n)
      && (n < |unique| ==> !Fits(unique, count, budget, n + 1))
      && truncated == ChunkIds(unique[n..])
  {
    included := [];
    var serialized: seq<string> := [];
    for index := 0 to |unique|
      invariant included == Cited(unique, index) && serialized == Serialized(included)
      invariant FitsUpTo(unique, count, budget, index)
    {
      var citation := Citation(CitationId(index + 1), unique[index]);
      CitedNext(unique, index, citation);
      var text := Serialize(citation);
      FitsNext(unique, count, budget, index, Join(serialized + [text]));
      if count(Join(serialized + [text])) > budget {
        return included, ChunkIds(unique[index..]);
      }
      serialized := serialized + [text];
      included := included + [citation];
    }
    return included, [];
  }

  lemma CitedNext(unique: seq<Chunk>, n: nat, citation: Citation)
    requires n < |unique| && citation == Citation(CitationId(n + 1), unique[n])
    ensures Cited(unique, n + 1) == Cited(unique, n) + [citation]
    ensures Serialized(Cited(unique, n + 1)) == Serialized(Cited(unique, n)) + [Serialize(citation)]
    ensures Context(Cited(unique, n + 1)) == Join(Serialized(Cited(unique, n)) + [Serialize(citation)])
  {
    SerializedNext(Cited(unique, n), citation);
    assert Cited(unique, n + 1) == Cited(unique, n) + [citation];
  }

  lemma SerializedNext(cs: seq<Citation>, c: Citation)
    ensures Serialized(cs + [c]) == Serialized(cs) + [Serialize(c)]
  {
  }

  /** A longer context never has fewer tokens. */
  ghost predicate Monotone(unique: seq<Chunk>, count: Counter) {
    forall m, n :: 0 <= m <= n <= |unique| ==> count(Context(Cited(unique, m))) <= count(Context(Cited(unique, n)))
  }

  /** When longer contexts do not have fewer tokens, the loop keeps the largest prefix that fits. */
  lemma LargestPrefix(unique: seq<Chunk>, count: Counter, budget: nat, n: nat, m: nat)
    requires Monotone(unique, count) && n <= |unique| && 1 <= m <= |unique|
    requires FitsUpTo(unique, count, budget, n)
    requires n < |unique| ==> !Fits(unique, count, budget, n + 1)
    ensures Fits(unique, count, budget, m) <==> m <= n
  {
  }

  lemma PrefixFits(unique: seq<Chunk>, count: Counter, budget: nat, n: nat)
    requires count("") == 0 && n <= |unique| && (n >= 1 ==> Fits(unique, count, budget, n))
    ensures Fits(unique, count, budget, n)
  {
    if n == 0 {
      assert Serialized(Cited(unique, 0)) == [];
    }
  }

  lemma IdsSplit(chunks: seq<Chunk>, n: nat)
    requires n <= |chunks|
    ensures ChunkIds(chunks[..n]) + ChunkIds(chunks[n..]) == ChunkIds(chunks)
  {
  }

  datatype Bundle = Bundle(items: seq<Citation>, text: string, tokens: nat, duplicates: set<string>,
    truncated: seq<string>)

  datatype BuildError = BadBudget | ConflictingProvenance

  /** Builds the context from the chunks in rank order. `count` gives a text's tokens, none for the empty one. */
  method Build(ordered: seq<Chunk>, budget: int, count: Counter) returns (r: Result<Bundle, BuildError>)
    requires count("") == 0
    ensures r == Err(BadBudget) <==> budget < 0
    ensures r == Err(ConflictingProvenance) <==> budget >= 0 && Conflicting(ordered)
    ensures r.Ok? ==> budget >= 0 && IsBundle(ordered, budget, count, r.value) && ReadsAs(r.value.text, r.value.items)
  {
    if budget < 0 {
      return Err(BadBudget);
    }
    var conflict, unique, duplicates := Deduplicate(ordered);
    if conflict {
      return Err(ConflictingProvenance);
    }
    var included, truncated := Include(unique, count, budget);
    var text := Context(included);
    var bundle := Bundle(included, text, count(text), duplicates, truncated);
    BundleHolds(ordered, budget, count, bundle);
    ContextSaysAll(included);
    return Ok(bundle);
  }

  lemma BundleHolds(ordered: seq<Chunk>, budget: nat, count: Counter, b: Bundle)
    requires var unique, n := Unique(ordered), |b.items|;
      && n <= |unique| && b.items == Cited(unique, n) && b.truncated == ChunkIds(unique[n..])
      && FitsUpTo(unique, count, budget, n)
      && (n < |unique| ==> !Fits(unique, count, budget, n + 1))
    requires count("") == 0 && b.text == Context(b.items) && b.tokens == count(b.text)
    requires AreDuplicates(ordered, b.duplicates)
    ensures IsBundle(ordered, budget, count, b)
  {
    PrefixFits(Unique(ordered), count, budget, |b.items|);
    IdsSplit(Unique(ordered), |b.items|);
  }

  ghost predicate IsBundle(ordered: seq<Chunk>, budget: nat, count: Counter, b: Bundle) {
    var unique, n := Unique(ordered), |b.items|;
    && n <= |unique| && b.items == Cited(unique, n)
    && ChunkIds(unique[..n]) + b.truncated == ChunkIds(unique)
    && b.text == Context(b.items) && b.tokens == count(b.text) <= budget
    && (n < |unique| ==> !Fits(unique, count, budget, n + 1))
    && FitsUpTo(unique, count, budget, n)
    && AreDuplicates(ordered, b.duplicates)
  }

  /** Without conflicts the unique chunks are all there are, each once. */
  lemma {:induction false} UniqueExact(ordered: seq<Chunk>)
    ensures forall c :: c in Unique(ordered) ==> c in ordered
    ensures forall id :: HasId(ordered, id) ==> HasId(Unique(ordered), id)
    ensures forall i, j :: 0 <= i < j < |Unique(ordered)| ==> Unique(ordered)[i].chunkId != Unique(ordered)[j].chunkId
  {
    if ordered != [] {
      var shorter, last := ordered[..|ordered| - 1], ordered[|ordered| - 1];
      UniqueExact(shorter);
      assert ordered == shorter + [last];
      var before := Unique(shorter);
      forall id | HasId(ordered, id) ensures HasId(Unique(ordered), id) {
        if HasId(shorter, id) {
          var c :| c in before && c.chunkId == id;
          assert c in Unique(ordered);
        } else {
          assert id == last.chunkId && last in Unique(ordered);
        }
      }
      if !HasId(shorter, last.chunkId) {
        forall i | 0 <= i < |before| ensures before[i].chunkId != last.chunkId {
          assert before[i] in before && before[i] in shorter;
        }
      }
    }
  }
}
