/** Accepting generated questions in input order under quotas and caps (src/ragbench/benchmark/validation.py).
    The evidence, answer, unanswerable and contamination rules enter as the codes they produced. */
module CandidateValidation {
  import opened Counters
  import opened Results
  import D = DuplicateGroups

  type Page = (string, nat)

  datatype Candidate = Candidate(
    id: string, kind: string, spans: seq<Page>, target: Option<Page>, contentRules: seq<string>)

  /** Quota per question type; a type without one has quota 0. */
  datatype Config = Config(quotas: map<string, nat>, documentCap: nat, pageCap: nat)

  // ----- what a candidate occupies

  function Documents(c: Candidate): set<string> {
    if c.target.Some? then {c.target.value.0} else set s | s in c.spans :: s.0
  }

  function Pages(c: Candidate): set<Page> {
    (set s | s in c.spans) + if c.target.Some? then {c.target.value} else {}
  }

  function Quota(config: Config, kind: string): nat {
    if kind in config.quotas then config.quotas[kind] else 0
  }

  // ----- how much of it accepted candidates have used

  function KindCount(accepted: seq<Candidate>, kind: string): nat {
    if accepted == [] then 0
    else KindCount(accepted[..|accepted| - 1], kind) + if accepted[|accepted| - 1].kind == kind then 1 else 0
  }

  function DocumentCount(accepted: seq<Candidate>, document: string): nat {
    if accepted == [] then 0
    else
      DocumentCount(accepted[..|accepted| - 1], document)
      + if document in Documents(accepted[|accepted| - 1]) then 1 else 0
  }

  function PageCount(accepted: seq<Candidate>, page: Page): nat {
    if accepted == [] then 0
    else PageCount(accepted[..|accepted| - 1], page) + if page in Pages(accepted[|accepted| - 1]) then 1 else 0
  }

  predicate WithinCaps(config: Config, accepted: seq<Candidate>, c: Candidate) {
    && KindCount(accepted, c.kind) < Quota(config, c.kind)
    && (forall d :: d in Documents(c) ==> DocumentCount(accepted, d) < config.documentCap)
    && (forall p :: p in Pages(c) ==> PageCount(accepted, p) < config.pageCap)
  }

  /** The codes a candidate is rejected for, given the identifiers already seen and the accepted ones. */
  function RuleCodes(config: Config, duplicates: set<string>, seen: set<string>, accepted: seq<Candidate>,
                     c: Candidate): seq<string> {
    var rules :=
      (if c.id in seen then ["duplicate_candidate_id"] else [])
      + (if c.id in duplicates then ["duplicate_question"] else [])
      + c.contentRules;
    if rules != [] then rules
    else if KindCount(accepted, c.kind) >= Quota(config, c.kind) then ["type_quota_exceeded"]
    else if exists d :: d in Documents(c) && DocumentCount(accepted, d) >= config.documentCap then
      ["per_document_cap_exceeded"]
    else if exists p :: p in Pages(c) && PageCount(accepted, p) >= config.pageCap then ["per_page_cap_exceeded"]
    else []
  }

  function Seen(candidates: seq<Candidate>, n: nat): set<string>
    requires n <= |candidates|
  {
    set i | 0 <= i < n :: candidates[i].id
  }

  /** Positions of the first `n` candidates that are accepted. */
  function AcceptedAt(config: Config, duplicates: set<string>, candidates: seq<Candidate>, n: nat): (at: seq<nat>)
    requires n <= |candidates|
    ensures forall k :: 0 <= k < |at| ==> at[k] < n
    decreases n, 0
  {
    if n == 0 then []
    else if Verdict(config, duplicates, candidates, n - 1) == [] then
      AcceptedAt(config, duplicates, candidates, n - 1) + [n - 1]
    else AcceptedAt(config, duplicates, candidates, n - 1)
  }

  /** The codes candidate `i` is rejected for, after those before it were decided. */
  function Verdict(config: Config, duplicates: set<string>, candidates: seq<Candidate>, i: nat): seq<string>
    requires i < |candidates|
    decreases i, 1
  {
    RuleCodes(config, duplicates, Seen(candidates, i),
      Picked(candidates, AcceptedAt(config, duplicates, candidates, i)), candidates[i])
  }

  function Picked(candidates: seq<Candidate>, at: seq<nat>): (picked: seq<Candidate>)
    requires forall k :: 0 <= k < |at| ==> at[k] < |candidates|
    ensures |picked| == |at| && forall k :: 0 <= k < |at| ==> picked[k] == candidates[at[k]]
  {
    seq(|at|, k requires 0 <= k < |at| => candidates[at[k]])
  }

  function Accepted(config: Config, duplicates: set<string>, candidates: seq<Candidate>, n: nat): seq<Candidate>
    requires n <= |candidates|
  {
    Picked(candidates, AcceptedAt(config, duplicates, candidates, n))
  }

  // ----- the loop

  function Ids(candidates: seq<Candidate>): (ids: seq<string>)
    ensures |ids| == |candidates| && forall i :: 0 <= i < |candidates| ==> ids[i] == candidates[i].id
  {
    seq(|candidates|, i requires 0 <= i < |candidates| => candidates[i].id)
  }

  method Validate(config: Config, candidates: seq<Candidate>, similar: (nat, nat) -> bool)
    returns (verdicts: seq<seq<string>>, groups: seq<seq<string>>, duplicates: set<string>)
    ensures D.AreGroups(Ids(candidates), similar, groups)
    ensures forall id :: id in duplicates <==>
      exists i :: 0 <= i < |candidates| && candidates[i].id == id && D.Repeats(|candidates|, similar, i)
    ensures |verdicts| == |candidates|
    ensures forall i :: 0 <= i < |candidates| ==> verdicts[i] == Verdict(config, duplicates, candidates, i)
  {
    groups, duplicates := D.FindDuplicates(Ids(candidates), similar);
    verdicts := Decide(config, candidates, duplicates);
  }

  /** The accept and reject loop. */
  method Decide(config: Config, candidates: seq<Candidate>, duplicates: set<string>)
    returns (verdicts: seq<seq<string>>)
    ensures |verdicts| == |candidates|
    ensures forall i :: 0 <= i < |candidates| ==> verdicts[i] == Verdict(config, duplicates, candidates, i)
  {
    var kinds: map<string, nat>, documents: map<string, nat>, pages: map<Page, nat> := map[], map[], map[];
    var seen: set<string> := {};
    ghost var accepted: seq<Candidate> := [];
    verdicts := [];
    for i := 0 to |candidates|
      invariant Decided(config, duplicates, candidates, i, verdicts, seen, accepted)
      invariant Tallies(accepted, kinds, documents, pages)
    {
      var c := candidates[i];
      var rules := Judge(config, duplicates, seen, accepted, c, kinds, documents, pages);
      DecidedNext(config, duplicates, candidates, i, verdicts, seen, accepted, rules);
      seen := seen + {c.id};
      verdicts := verdicts + [rules];
      if rules == [] {
        TalliesNext(accepted, c, kinds, documents, pages);
        kinds, documents, pages := Bumped(kinds, {c.kind}), Bumped(documents, Documents(c)), Bumped(pages, Pages(c));
        accepted := accepted + [c];
      }
    }
  }

  /** The first `n` candidates are decided. */
  ghost predicate Decided(config: Config, duplicates: set<string>, candidates: seq<Candidate>, n: nat,
                          verdicts: seq<seq<string>>, seen: set<string>, accepted: seq<Candidate>) {
    && n <= |candidates| && |verdicts| == n && seen == Seen(candidates, n)
    && accepted == Accepted(config, duplicates, candidates, n)
    && forall k :: 0 <= k < n ==> verdicts[k] == Verdict(config, duplicates, candidates, k)
  }

  lemma DecidedNext(config: Config, duplicates: set<string>, candidates: seq<Candidate>, n: nat,
                    verdicts: seq<seq<string>>, seen: set<string>, accepted: seq<Candidate>, rules: seq<string>)
    requires n < |candidates| && Decided(config, duplicates, candidates, n, verdicts, seen, accepted)
    requires rules == RuleCodes(config, duplicates, seen, accepted, candidates[n])
    ensures Decided(config, duplicates, candidates, n + 1, verdicts + [rules], seen + {candidates[n].id},
                    if rules == [] then accepted + [candidates[n]] else accepted)
  {
    AcceptedNext(config, duplicates, candidates, n);
    assert rules == Verdict(config, duplicates, candidates, n);
    assert Seen(candidates, n + 1) == Seen(candidates, n) + {candidates[n].id};
  }

  /** One candidate's codes, from the counters. */
  method Judge(config: Config, duplicates: set<string>, seen: set<string>, ghost accepted: seq<Candidate>, c: Candidate,
               kinds: map<string, nat>, documents: map<string, nat>, pages: map<Page, nat>) returns (rules: seq<string>)
    requires Tallies(accepted, kinds, documents, pages)
    ensures rules == RuleCodes(config, duplicates, seen, accepted, c)
  {
    rules := (if c.id in seen then ["duplicate_candidate_id"] else [])
      + (if c.id in duplicates then ["duplicate_question"] else [])
      + c.contentRules;
    if rules == [] {
      if Get(kinds, c.kind) >= Quota(config, c.kind) {
        rules := ["type_quota_exceeded"];
      } else if exists d :: d in Documents(c) && Get(documents, d) >= config.documentCap {
        rules := ["per_document_cap_exceeded"];
      } else if exists p :: p in Pages(c) && Get(pages, p) >= config.pageCap {
        rules := ["per_page_cap_exceeded"];
      }
    }
  }

  ghost predicate Tallies(accepted: seq<Candidate>, kinds: map<string, nat>, documents: map<string, nat>,
                          pages: map<Page, nat>) {
    && (forall k :: Get(kinds, k) == KindCount(accepted, k))
    && (forall d :: Get(documents, d) == DocumentCount(accepted, d))
    && (forall p :: Get(pages, p) == PageCount(accepted, p))
  }

  lemma TalliesNext(accepted: seq<Candidate>, c: Candidate, kinds: map<string, nat>, documents: map<string, nat>,
                    pages: map<Page, nat>)
    requires Tallies(accepted, kinds, documents, pages)
    ensures Tallies(accepted + [c], Bumped(kinds, {c.kind}), Bumped(documents, Documents(c)), Bumped(pages, Pages(c)))
  {
    assert (accepted + [c])[..|accepted|] == accepted;
  }

  lemma AcceptedNext(config: Config, duplicates: set<string>, candidates: seq<Candidate>, n: nat)
    requires n < |candidates|
    ensures Accepted(config, duplicates, candidates, n + 1) ==
      if Verdict(config, duplicates, candidates, n) == []
      then Accepted(config, duplicates, candidates, n) + [candidates[n]]
      else Accepted(config, duplicates, candidates, n)
  {
  }

  // ----- what the accepted set satisfies

  /** Every quota and cap is respected, at every moment. */
  lemma {:induction false} CapsRespected(config: Config, duplicates: set<string>, candidates: seq<Candidate>, n: nat)
    requires n <= |candidates|
    ensures var accepted := Accepted(config, duplicates, candidates, n);
      && (forall k :: KindCount(accepted, k) <= Quota(config, k))
      && (forall d :: DocumentCount(accepted, d) <= config.documentCap)
      && (forall p :: PageCount(accepted, p) <= config.pageCap)
  {
    if n > 0 {
      CapsRespected(config, duplicates, candidates, n - 1);
      AcceptedNext(config, duplicates, candidates, n - 1);
      var before, c := Accepted(config, duplicates, candidates, n - 1), candidates[n - 1];
      assert (before + [c])[..|before|] == before;
    }
  }

  /** A question takes the document of its target page, or without one those of its evidence spans. */
  predicate TakesDocument(c: Candidate, document: string) {
    match c.target
    case Some(page) => page.0 == document
    case None => exists k :: 0 <= k < |c.spans| && c.spans[k].0 == document
  }

  predicate TakesPage(c: Candidate, page: Page) {
    page in c.spans || c.target == Some(page)
  }

  /** Places among the accepted whose question is of this type, or takes this document or page. */
  function OfKind(accepted: seq<Candidate>, kind: string): set<nat> {
    set k: nat | k < |accepted| && accepted[k].kind == kind
  }

  function TakingDocument(accepted: seq<Candidate>, document: string): set<nat> {
    set k: nat | k < |accepted| && TakesDocument(accepted[k], document)
  }

  function TakingPage(accepted: seq<Candidate>, page: Page): set<nat> {
    set k: nat | k < |accepted| && TakesPage(accepted[k], page)
  }

  lemma TakesExact(c: Candidate, document: string, page: Page)
    ensures document in Documents(c) <==> TakesDocument(c, document)
    ensures page in Pages(c) <==> TakesPage(c, page)
  {
    if c.target.None? && document in Documents(c) {
      var s :| s in c.spans && s.0 == document;
      var k :| 0 <= k < |c.spans| && c.spans[k] == s;
    }
  }

  lemma OfKindNext(accepted: seq<Candidate>, kind: string)
    requires accepted != []
    ensures var k: nat := |accepted| - 1;
      OfKind(accepted, kind) == OfKind(accepted[..k], kind) + if accepted[k].kind == kind then {k} else {}
  {
    var k: nat := |accepted| - 1;
    assert forall i: nat :: i < k ==> accepted[..k][i] == accepted[i];
  }

  lemma TakingDocumentNext(accepted: seq<Candidate>, document: string)
    requires accepted != []
    ensures var k: nat := |accepted| - 1;
      TakingDocument(accepted, document) == TakingDocument(accepted[..k], document) +
        if TakesDocument(accepted[k], document) then {k} else {}
  {
    var k: nat := |accepted| - 1;
    assert forall i: nat :: i < k ==> accepted[..k][i] == accepted[i];
  }

  lemma TakingPageNext(accepted: seq<Candidate>, page: Page)
    requires accepted != []
    ensures var k: nat := |accepted| - 1;
      TakingPage(accepted, page) == TakingPage(accepted[..k], page) + if TakesPage(accepted[k], page) then {k} else {}
  {
    var k: nat := |accepted| - 1;
    assert forall i: nat :: i < k ==> accepted[..k][i] == accepted[i];
  }

  lemma {:induction false} KindCountExact(accepted: seq<Candidate>, kind: string)
    ensures KindCount(accepted, kind) == |OfKind(accepted, kind)|
  {
    if accepted != [] {
      var k: nat := |accepted| - 1;
      KindCountExact(accepted[..k], kind);
      OfKindNext(accepted, kind);
    }
  }

  lemma {:induction false} DocumentCountExact(accepted: seq<Candidate>, document: string)
    ensures DocumentCount(accepted, document) == |TakingDocument(accepted, document)|
  {
    if accepted != [] {
      var k: nat := |accepted| - 1;
      DocumentCountExact(accepted[..k], document);
      TakesExact(accepted[k], document, ("", 0));
      TakingDocumentNext(accepted, document);
    }
  }

  lemma {:induction false} PageCountExact(accepted: seq<Candidate>, page: Page)
    ensures PageCount(accepted, page) == |TakingPage(accepted, page)|
  {
    if accepted != [] {
      var k: nat := |accepted| - 1;
      PageCountExact(accepted[..k], page);
      TakesExact(accepted[k], "", page);
      TakingPageNext(accepted, page);
    }
  }

  /** In numbers: at most the quota of accepted questions are of a type, and at most the caps take a document or
      a page. */
  lemma CapsCounted(config: Config, duplicates: set<string>, candidates: seq<Candidate>, n: nat, kind: string,
                    document: string, page: Page)
    requires n <= |candidates|
    ensures var accepted := Accepted(config, duplicates, candidates, n);
      && |OfKind(accepted, kind)| <= Quota(config, kind)
      && |TakingDocument(accepted, document)| <= config.documentCap
      && |TakingPage(accepted, page)| <= config.pageCap
  {
    CapsRespected(config, duplicates, candidates, n);
    var accepted := Accepted(config, duplicates, candidates, n);
    KindCountExact(accepted, kind);
    DocumentCountExact(accepted, document);
    PageCountExact(accepted, page);
  }

  lemma {:induction false} AcceptedWhere(config: Config, duplicates: set<string>, candidates: seq<Candidate>, n: nat,
                                         i: nat)
    requires n <= |candidates|
    ensures i in AcceptedAt(config, duplicates, candidates, n) <==>
      i < n && Verdict(config, duplicates, candidates, i) == []
  {
    if n > 0 {
      AcceptedWhere(config, duplicates, candidates, n - 1, i);
      MembersNext(AcceptedAt(config, duplicates, candidates, n - 1), n - 1);
    }
  }

  lemma MembersNext(at: seq<nat>, x: nat)
    ensures forall i :: i in at + [x] <==> i in at || i == x
  {
  }

  lemma LaterIsDuplicate(duplicates: set<string>, candidates: seq<Candidate>, similar: (nat, nat) -> bool, i: nat,
                         j: nat)
    requires forall id :: id in duplicates <==>
      exists k :: 0 <= k < |candidates| && candidates[k].id == id && D.Repeats(|candidates|, similar, k)
    requires i < j < |candidates| && D.Connected(|candidates|, similar, i, j)
    ensures candidates[j].id in duplicates
  {
    assert D.Repeats(|candidates|, similar, j);
  }

  /** Of the questions connected by similarity at most one is accepted: of two, the later one repeats. */
  lemma OnePerComponent(config: Config, duplicates: set<string>, candidates: seq<Candidate>,
                        similar: (nat, nat) -> bool, i: nat, j: nat)
    requires forall id :: id in duplicates <==>
      exists k :: 0 <= k < |candidates| && candidates[k].id == id && D.Repeats(|candidates|, similar, k)
    requires i in AcceptedAt(config, duplicates, candidates, |candidates|)
    requires j in AcceptedAt(config, duplicates, candidates, |candidates|)
    requires D.Connected(|candidates|, similar, i, j)
    ensures i == j
  {
    AcceptedWhere(config, duplicates, candidates, |candidates|, i);
    AcceptedWhere(config, duplicates, candidates, |candidates|, j);
    D.ConnectedBack(|candidates|, similar, i, j);
    if i < j {
      LaterIsDuplicate(duplicates, candidates, similar, i, j);
    }
    if j < i {
      LaterIsDuplicate(duplicates, candidates, similar, j, i);
    }
  }

  /** A candidate is accepted exactly when its identifier is new, no similar question came before one of
      that identifier, its content breaks no rule, and the caps leave room for it. */
  lemma AcceptedIff(config: Config, duplicates: set<string>, candidates: seq<Candidate>, i: nat)
    requires i < |candidates|
    ensures i in AcceptedAt(config, duplicates, candidates, |candidates|) <==>
      && candidates[i].id !in Seen(candidates, i)
      && candidates[i].id !in duplicates
      && candidates[i].contentRules == []
      && WithinCaps(config, Accepted(config, duplicates, candidates, i), candidates[i])
  {
    AcceptedWhere(config, duplicates, candidates, |candidates|, i);
  }
}
