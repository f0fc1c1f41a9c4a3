/** `extractResponseExamples`: the response examples of one operation block,
    read from its `.response` nodes, or from its bare code blocks when no node
    yields one, then de-duplicated by status with the first occurrence kept. */
module Responses {
  import opened Dom
  import opened Text

  /** The content type every extracted example carries. */
  const Json: string := "application/json"

  datatype Example = Example(status: string, contentType: string, text: string)

  // ---------------------------------------------------------------------------
  // Status normalisation

  predicate Truthy(o: Option<string>) {
    o.Some? && o.value != ""
  }

  /** The `a || b || c || d || ''` chain over the status elements' texts: the
      first one present and non-empty, or the empty string. */
  function FirstTruthy(texts: seq<Option<string>>): (r: string)
    ensures r != "" ==> exists k :: 0 <= k < |texts| && texts[k] == Some(r)
                                      && forall j :: 0 <= j < k ==> !Truthy(texts[j])
    ensures r == "" ==> forall k :: 0 <= k < |texts| ==> !Truthy(texts[k])
  {
    if texts == [] then ""
    else if Truthy(texts[0]) then texts[0].value
    else
      var r := FirstTruthy(texts[1..]);
      assert r != "" ==> exists k :: 0 < k < |texts| && texts[k] == Some(r)
                                       && forall j :: 0 <= j < k ==> !Truthy(texts[j]) by {
        if r != "" {
          var k :| 0 <= k < |texts| - 1 && texts[1..][k] == Some(r)
                   && forall j :: 0 <= j < k ==> !Truthy(texts[1..][j]);
          assert texts[k + 1] == Some(r);
          assert forall j :: 0 <= j < k + 1 ==> !Truthy(texts[j]) by {
            forall j | 0 < j < k + 1 ensures !Truthy(texts[j]) {
              assert texts[j] == texts[1..][j - 1];
            }
          }
        }
      }
      r
  }

  /** Three consecutive decimal digits start at position `i` of `t`: a match of `/(\d{3})/`. */
  predicate DigitRunAt(t: string, i: int) {
    0 <= i && i + 3 <= |t| && IsDigit(t[i]) && IsDigit(t[i + 1]) && IsDigit(t[i + 2])
  }

  /** The leftmost match of `/(\d{3})/` at or after `from`, if any. */
  function FirstDigitRun(t: string, from: nat): (r: Option<nat>)
    requires from <= |t|
    ensures r.Some? ==> from <= r.value && DigitRunAt(t, r.value)
                        && forall j :: from <= j < r.value ==> !DigitRunAt(t, j)
    ensures r.None? ==> forall j :: from <= j ==> !DigitRunAt(t, j)
    decreases |t| - from
  {
    if from + 3 > |t| then None
    else if DigitRunAt(t, from) then Some(from)
    else FirstDigitRun(t, from + 1)
  }

  /** The status a response node is labelled with.  The first present,
      non-empty status text is trimmed; when it holds three consecutive digits
      the status is the leftmost such run; otherwise it is the trimmed text
      itself, or "200" when that is empty.  The status is never empty. */
  function NormalizeStatus(texts: seq<Option<string>>): (status: string)
    ensures status != ""
    ensures var t := Trim(FirstTruthy(texts));
            (exists i :: DigitRunAt(t, i)) ==>
              exists i :: DigitRunAt(t, i) && status == t[i..i + 3]
                          && forall j :: 0 <= j < i ==> !DigitRunAt(t, j)
    ensures var t := Trim(FirstTruthy(texts));
            (forall i :: !DigitRunAt(t, i)) ==> status == if t == "" then "200" else t
  {
    var t := Trim(FirstTruthy(texts));
    match FirstDigitRun(t, 0)
    case Some(i) => t[i..i + 3]
    case None => if t == "" then "200" else t
  }

  // ---------------------------------------------------------------------------
  // The two passes

  /** What the primary pass emits for one node: an example only when the node
      has a code element whose trimmed inner text is non-empty. */
  function PrimaryExample(node: ResponseNode): seq<Example> {
    if node.code.Some? && Trim(node.code.value) != "" then
      [Example(NormalizeStatus(node.statusTexts), Json, Trim(node.code.value))]
    else []
  }

  /** The examples the primary pass pushes for `nodes`, in order. */
  function PrimaryExamples(nodes: seq<ResponseNode>): seq<Example> {
    if nodes == [] then []
    else PrimaryExamples(nodes[..|nodes| - 1]) + PrimaryExample(nodes[|nodes| - 1])
  }

  /** The fallback label of the code block at raw index `idx`: "200" for the
      first, then `ex1`, `ex2`, ... */
  function FallbackLabel(idx: nat): string {
    if idx == 0 then "200" else "ex" + Decimal(idx)
  }

  /** Only the first block is labelled "200"; every label has at least three characters. */
  lemma FallbackLabelFirst(idx: nat)
    ensures |FallbackLabel(idx)| >= 3
    ensures FallbackLabel(idx) == "200" <==> idx == 0
  {
    if idx > 0 {
      assert FallbackLabel(idx)[0] == 'e';
    }
  }

  /** The inner texts of the code blocks, each trimmed. */
  function TrimAll(blocks: seq<string>): (texts: seq<string>)
    ensures |texts| == |blocks|
    ensures forall i :: 0 <= i < |blocks| ==> texts[i] == Trim(blocks[i])
  {
    seq(|blocks|, i requires 0 <= i < |blocks| => Trim(blocks[i]))
  }

  /** The examples the fallback scan pushes for the trimmed block texts
      `texts`: one per non-empty text, labelled by the block's raw index, so
      that empty blocks still use up an index. */
  function LabelBlocks(texts: seq<string>): seq<Example> {
    if texts == [] then []
    else
      var idx := |texts| - 1;
      LabelBlocks(texts[..idx])
      + (if texts[idx] != "" then [FallbackEntry(texts, idx)] else [])
  }

  /** The example the fallback scan builds from the block at raw index `idx`. */
  function FallbackEntry(texts: seq<string>, idx: nat): Example
    requires idx < |texts|
  {
    Example(FallbackLabel(idx), Json, texts[idx])
  }

  function FallbackExamples(blocks: seq<string>): seq<Example> {
    LabelBlocks(TrimAll(blocks))
  }

  /** The candidates before de-duplication: the fallback scan runs only when
      the primary pass emitted nothing. */
  function Candidates(op: OpBlock): seq<Example> {
    var primary := PrimaryExamples(op.responses);
    if primary == [] then FallbackExamples(op.codeBlocks) else primary
  }

  // ---------------------------------------------------------------------------
  // De-duplication

  function Statuses(xs: seq<Example>): set<string> {
    set e | e in xs :: e.status
  }

  /** The `seen`-set filter: keep an example unless an earlier kept one has its status. */
  function Dedup(xs: seq<Example>): seq<Example> {
    if xs == [] then []
    else
      var kept := Dedup(xs[..|xs| - 1]);
      var e := xs[|xs| - 1];
      if e.status in Statuses(kept) then kept else kept + [e]
  }

  /** Position `i` holds the first occurrence of its status in `xs`. */
  predicate IsFirst(xs: seq<Example>, i: nat)
    requires i < |xs|
  {
    forall j :: 0 <= j < i ==> xs[j].status != xs[i].status
  }

  /** Reference definition: the entries of `xs[..n]` at first-occurrence
      positions, in their original order. */
  function FirstOccurrences(xs: seq<Example>, n: nat): seq<Example>
    requires n <= |xs|
  {
    if n == 0 then []
    else FirstOccurrences(xs, n - 1) + (if IsFirst(xs, n - 1) then [xs[n - 1]] else [])
  }

  /** What `extractResponseExamples` returns for an operation block. */
  function ResponseExamples(op: OpBlock): seq<Example> {
    Dedup(Candidates(op))
  }

  predicate DistinctStatuses(xs: seq<Example>) {
    forall i, j :: 0 <= i < j < |xs| ==> xs[i].status != xs[j].status
  }

  // ---------------------------------------------------------------------------
  // The operation itself

  /** `extractResponseExamples`: the primary pass over the response nodes,
      the fallback scan when that found nothing, then the `seen`-set filter. */
  method ExtractResponseExamples(op: OpBlock) returns (examples: seq<Example>)
    ensures examples == ResponseExamples(op)
    ensures DistinctStatuses(examples)
  {
    var found := ScanResponseNodes(op.responses);
    if found == [] {
      found := ScanCodeBlocks(op.codeBlocks);
    }
    examples := KeepFirstPerStatus(found);
  }

  /** The primary pass: one example per response node with a non-empty code text. */
  method ScanResponseNodes(nodes: seq<ResponseNode>) returns (found: seq<Example>)
    ensures found == PrimaryExamples(nodes)
  {
    found := [];
    for i := 0 to |nodes|
      invariant found == PrimaryExamples(nodes[..i])
    {
      ghost var before := found;
      var node := nodes[i];
      var status := NormalizeStatus(node.statusTexts);
      if node.code.Some? {
        var text := Trim(node.code.value);
        if text != "" {
          found := found + [Example(status, Json, text)];
        }
      }
      assert found == before + PrimaryExample(node);
      assert nodes[..i + 1][..i] == nodes[..i];
    }
    assert nodes[..|nodes|] == nodes;
  }

  /** The fallback scan: one example per non-empty code block, labelled by its raw index. */
  method ScanCodeBlocks(blocks: seq<string>) returns (found: seq<Example>)
    ensures found == FallbackExamples(blocks)
  {
    found := [];
    ghost var texts := TrimAll(blocks);
    for idx := 0 to |blocks|
      invariant found == LabelBlocks(texts[..idx])
    {
      var txt := Trim(blocks[idx]);
      if txt != "" {
        found := found + [Example(FallbackLabel(idx), Json, txt)];
      }
      assert texts[..idx + 1][..idx] == texts[..idx];
    }
    assert texts[..|texts|] == texts;
  }

  /** The `seen`-set filter: an example is kept unless its status was seen before. */
  method KeepFirstPerStatus(found: seq<Example>) returns (kept: seq<Example>)
    ensures kept == Dedup(found)
    ensures DistinctStatuses(kept)
  {
    kept := [];
    var seen: set<string> := {};
    for i := 0 to |found|
      invariant kept == Dedup(found[..i])
      invariant seen == Statuses(kept)
    {
      var e := found[i];
      if e.status !in seen {
        seen := seen + {e.status};
        kept := kept + [e];
      }
      assert found[..i + 1][..i] == found[..i];
    }
    assert found[..|found|] == found;
    DedupDistinct(found);
  }

  // ---------------------------------------------------------------------------
  // Properties of de-duplication

  /** Every status among the candidates survives de-duplication. */
  lemma {:induction false} DedupStatuses(xs: seq<Example>)
    ensures Statuses(Dedup(xs)) == Statuses(xs)
  {
    if xs != [] {
      var init := xs[..|xs| - 1];
      DedupStatuses(init);
      var e := xs[|xs| - 1];
      assert xs == init + [e];
      assert Statuses(xs) == Statuses(init) + {e.status};
      var kept := Dedup(init);
      assert Statuses(kept + [e]) == Statuses(kept) + {e.status};
    }
  }

  /** No two kept examples share a status. */
  lemma {:induction false} DedupDistinct(xs: seq<Example>)
    ensures DistinctStatuses(Dedup(xs))
  {
    if xs != [] {
      DedupDistinct(xs[..|xs| - 1]);
    }
  }

  /** Every kept example is one of the candidates. */
  lemma {:induction false} DedupSubset(xs: seq<Example>)
    ensures forall e :: e in Dedup(xs) ==> e in xs
  {
    if xs != [] {
      DedupSubset(xs[..|xs| - 1]);
    }
  }

  /** The `seen`-set filter keeps exactly the first occurrence of each status,
      in the candidates' order. */
  lemma {:induction false} DedupIsFirstOccurrences(xs: seq<Example>, n: nat)
    requires n <= |xs|
    ensures Dedup(xs[..n]) == FirstOccurrences(xs, n)
  {
    if n > 0 {
      DedupIsFirstOccurrences(xs, n - 1);
      assert xs[..n][..n - 1] == xs[..n - 1];
      DedupStatuses(xs[..n - 1]);
      SeenIffNotFirst(xs, n - 1);
    }
  }

  /** A status was seen before position `i` exactly when `i` is not its first occurrence. */
  lemma SeenIffNotFirst(xs: seq<Example>, i: nat)
    requires i < |xs|
    ensures xs[i].status in Statuses(xs[..i]) <==> !IsFirst(xs, i)
  {
    var init := xs[..i];
    if xs[i].status in Statuses(init) {
      var e :| e in init && e.status == xs[i].status;
      var j :| 0 <= j < i && init[j] == e;
      assert xs[j].status == xs[i].status;
    }
    if !IsFirst(xs, i) {
      var j :| 0 <= j < i && xs[j].status == xs[i].status;
      assert init[j] in init;
    }
  }

  /** The first occurrence of each status is among the kept examples. */
  lemma {:induction false} FirstOccurrenceKept(xs: seq<Example>, n: nat, i: nat)
    requires i < n <= |xs| && IsFirst(xs, i)
    ensures xs[i] in FirstOccurrences(xs, n)
  {
    if i < n - 1 {
      FirstOccurrenceKept(xs, n - 1, i);
    }
  }

  /** A sequence whose statuses are already distinct passes the filter unchanged. */
  lemma {:induction false} DedupOfDistinct(xs: seq<Example>)
    requires DistinctStatuses(xs)
    ensures Dedup(xs) == xs
  {
    if xs != [] {
      var init := xs[..|xs| - 1];
      DedupOfDistinct(init);
      DedupStatuses(init);
      assert xs == init + [xs[|xs| - 1]];
    }
  }

  // ---------------------------------------------------------------------------
  // Properties of the two passes

  /** Every candidate carries a non-empty status, the JSON content type and a
      trimmed, non-empty body. */
  lemma {:induction false} PrimaryShape(nodes: seq<ResponseNode>)
    ensures forall e :: e in PrimaryExamples(nodes) ==>
      e.status != "" && e.contentType == Json && e.text != "" && Trim(e.text) == e.text
  {
    if nodes != [] {
      PrimaryShape(nodes[..|nodes| - 1]);
      var node := nodes[|nodes| - 1];
      if node.code.Some? {
        TrimIdempotent(node.code.value);
      }
    }
  }

  lemma {:induction false} LabelBlocksShape(texts: seq<string>)
    ensures forall e :: e in LabelBlocks(texts) ==>
      e.status != "" && e.contentType == Json && e.text != "" && e.text in texts
  {
    if texts != [] {
      LabelBlocksShape(texts[..|texts| - 1]);
    }
  }

  lemma FallbackShape(blocks: seq<string>)
    ensures forall e :: e in FallbackExamples(blocks) ==>
      e.status != "" && e.contentType == Json && e.text != "" && Trim(e.text) == e.text
  {
    var texts := TrimAll(blocks);
    LabelBlocksShape(texts);
    forall i | 0 <= i < |blocks| ensures Trim(texts[i]) == texts[i] {
      TrimIdempotent(blocks[i]);
    }
  }

  lemma CandidatesShape(op: OpBlock)
    ensures forall e :: e in Candidates(op) ==>
      e.status != "" && e.contentType == Json && e.text != "" && Trim(e.text) == e.text
  {
    PrimaryShape(op.responses);
    FallbackShape(op.codeBlocks);
  }

  /** Every extracted example carries the JSON content type. */
  lemma ExamplesAreJson(op: OpBlock)
    ensures forall k :: 0 <= k < |ResponseExamples(op)| ==> ResponseExamples(op)[k].contentType == Json
  {
    CandidatesShape(op);
    DedupSubset(Candidates(op));
    var xs := ResponseExamples(op);
    forall k | 0 <= k < |xs| ensures xs[k].contentType == Json {
      assert xs[k] in Candidates(op);
    }
  }

  /** The fallback emits, for each block, an example labelled by the block's
      raw index exactly when the block's trimmed text is non-empty, and nothing else. */
  lemma LabelBlocksByIndex(texts: seq<string>)
    ensures forall idx :: 0 <= idx < |texts| && texts[idx] != "" ==>
      FallbackEntry(texts, idx) in LabelBlocks(texts)
    ensures forall e :: e in LabelBlocks(texts) ==>
      exists idx :: 0 <= idx < |texts| && texts[idx] != "" && e == FallbackEntry(texts, idx)
  {
    LabelBlocksComplete(texts);
    LabelBlocksSound(texts);
  }

  /** Every non-empty block's labelled example is emitted. */
  lemma {:induction false} LabelBlocksComplete(texts: seq<string>)
    ensures forall idx :: 0 <= idx < |texts| && texts[idx] != "" ==>
      FallbackEntry(texts, idx) in LabelBlocks(texts)
  {
    if texts != [] {
      var n := |texts| - 1;
      var init := texts[..n];
      var prev := LabelBlocks(init);
      LabelBlocksComplete(init);
      assert LabelBlocks(texts) == prev + (if texts[n] != "" then [FallbackEntry(texts, n)] else []);
      forall idx | 0 <= idx < |texts| && texts[idx] != ""
        ensures FallbackEntry(texts, idx) in LabelBlocks(texts)
      {
        if idx < n {
          assert init[idx] == texts[idx];
          assert FallbackEntry(init, idx) == FallbackEntry(texts, idx);
          assert FallbackEntry(texts, idx) in prev;
        }
      }
    }
  }

  /** Every emitted example is the labelled example of a non-empty block. */
  lemma {:induction false} LabelBlocksSound(texts: seq<string>)
    ensures forall e :: e in LabelBlocks(texts) ==>
      exists idx :: 0 <= idx < |texts| && texts[idx] != "" && e == FallbackEntry(texts, idx)
  {
    if texts != [] {
      var n := |texts| - 1;
      var init := texts[..n];
      var prev := LabelBlocks(init);
      LabelBlocksSound(init);
      forall e | e in LabelBlocks(texts)
        ensures exists idx :: 0 <= idx < |texts| && texts[idx] != "" && e == FallbackEntry(texts, idx)
      {
        if e in prev {
          var idx :| 0 <= idx < n && init[idx] != "" && e == FallbackEntry(init, idx);
          assert texts[idx] == init[idx];
        } else {
          assert texts[n] != "" && e == FallbackEntry(texts, n);
        }
      }
    }
  }

  lemma FallbackByIndex(blocks: seq<string>)
    ensures forall idx :: 0 <= idx < |blocks| && Trim(blocks[idx]) != "" ==>
      Example(FallbackLabel(idx), Json, Trim(blocks[idx])) in FallbackExamples(blocks)
    ensures forall e :: e in FallbackExamples(blocks) ==>
      exists idx :: 0 <= idx < |blocks| && Trim(blocks[idx]) != ""
                    && e == Example(FallbackLabel(idx), Json, Trim(blocks[idx]))
  {
    var texts := TrimAll(blocks);
    LabelBlocksByIndex(texts);
    forall e | e in FallbackExamples(blocks)
      ensures exists idx :: 0 <= idx < |blocks| && Trim(blocks[idx]) != ""
                            && e == Example(FallbackLabel(idx), Json, Trim(blocks[idx]))
    {
      var idx :| 0 <= idx < |texts| && texts[idx] != "" && e == FallbackEntry(texts, idx);
    }
  }

  /** Different raw indices get different labels. */
  lemma FallbackLabelInjective(a: nat, b: nat)
    ensures FallbackLabel(a) == FallbackLabel(b) ==> a == b
  {
    if a != 0 && b != 0 {
      if FallbackLabel(a) == FallbackLabel(b) {
        assert Decimal(a) == FallbackLabel(a)[2..];
        assert Decimal(b) == FallbackLabel(b)[2..];
        DecimalInjective(a, b);
      }
    } else if a != b {
      assert FallbackLabel(a)[0] != FallbackLabel(b)[0];
    }
  }

  /** The fallback labels are pairwise distinct, so de-duplication never drops a
      fallback example. */
  lemma FallbackNeverDeduplicated(blocks: seq<string>)
    ensures Dedup(FallbackExamples(blocks)) == FallbackExamples(blocks)
  {
    LabelBlocksDistinct(TrimAll(blocks));
    DedupOfDistinct(FallbackExamples(blocks));
  }

  lemma {:induction false} LabelBlocksDistinct(texts: seq<string>)
    ensures DistinctStatuses(LabelBlocks(texts))
  {
    if texts != [] {
      var n := |texts| - 1;
      var init := texts[..n];
      var prev := LabelBlocks(init);
      LabelBlocksDistinct(init);
      var xs := LabelBlocks(texts);
      if texts[n] != "" {
        LabelBlocksByIndex(init);
        var last := FallbackEntry(texts, n);
        assert xs == prev + [last];
        forall i | 0 <= i < |prev| ensures prev[i].status != last.status {
          assert prev[i] in prev;
          var idx :| 0 <= idx < n && init[idx] != "" && prev[i] == FallbackEntry(init, idx);
          FallbackLabelInjective(idx, n);
        }
        forall i, j | 0 <= i < j < |xs| ensures xs[i].status != xs[j].status {
          if j == n {
            assert xs[i] == prev[i];
          }
        }
      } else {
        assert xs == prev;
      }
    }
  }
}

/** Worked instances of the extraction rules. */
module ResponseExamplesByCase {
  import opened Dom
  import opened Text
  import opened Responses

  lemma TrimPlain(s: string)
    requires s != [] && !IsWhitespace(s[0]) && !IsWhitespace(s[|s| - 1])
    ensures Trim(s) == s
  {
    assert SkipStart(s, 0) == 0;
    assert SkipEnd(s, 0, |s|) == |s|;
    assert s[0..|s|] == s;
  }

  /** Three response nodes labelled 200, 200 and 404: the second 200 is dropped
      and the first body is kept. */
  lemma DuplicateStatusKeepsFirst()
    ensures ResponseExamples(OpBlock(None, None, [
              ResponseNode([Some("200")], Some("{1}")),
              ResponseNode([None, Some("200")], Some("{2}")),
              ResponseNode([None, None, Some("404")], Some("{}"))], []))
            == [Example("200", Json, "{1}"), Example("404", Json, "{}")]
  {
    var n1 := ResponseNode([Some("200")], Some("{1}"));
    var n2 := ResponseNode([None, Some("200")], Some("{2}"));
    var n3 := ResponseNode([None, None, Some("404")], Some("{}"));
    FirstTruthyAfterNones(n1.statusTexts, "200");
    FirstTruthyAfterNones(n2.statusTexts, "200");
    FirstTruthyAfterNones(n3.statusTexts, "404");
    LabelledNode(n1.statusTexts, "200", "{1}");
    LabelledNode(n2.statusTexts, "200", "{2}");
    LabelledNode(n3.statusTexts, "404", "{}");
    var e1, e2, e3 := Example("200", Json, "{1}"), Example("200", Json, "{2}"), Example("404", Json, "{}");
    PrimaryOfThree(n1, n2, n3);
    assert PrimaryExamples([n1, n2, n3]) == [e1, e2, e3];
    var op := OpBlock(None, None, [n1, n2, n3], []);
    assert Candidates(op) == [e1, e2, e3];
    DedupOfThree(e1, e2, e3);
  }

  lemma PrimaryOfThree(n1: ResponseNode, n2: ResponseNode, n3: ResponseNode)
    ensures PrimaryExamples([n1, n2, n3]) == PrimaryExample(n1) + PrimaryExample(n2) + PrimaryExample(n3)
  {
    assert [n1, n2, n3][..2] == [n1, n2];
    assert [n1, n2][..1] == [n1];
    assert [n1][..0] == [];
    assert PrimaryExamples([n1]) == PrimaryExample(n1);
    assert PrimaryExamples([n1, n2]) == PrimaryExample(n1) + PrimaryExample(n2);
  }

  /** Of three examples where only the first two share a status, the filter
      keeps the first and the third. */
  lemma DedupOfThree(e1: Example, e2: Example, e3: Example)
    requires e1.status == e2.status != e3.status
    ensures Dedup([e1, e2, e3]) == [e1, e3]
  {
    assert [e1, e2, e3][..2] == [e1, e2];
    assert [e1, e2][..1] == [e1];
    assert [e1][..0] == [];
    assert Dedup([e1]) == [e1];
    assert Dedup([e1, e2]) == [e1];
  }

  /** A node whose first truthy status text is the bare code `code` and whose
      code is `body` yields one example with that status and body. */
  lemma LabelledNode(texts: seq<Option<string>>, code: string, body: string)
    requires code in {"200", "404"} && body in {"{1}", "{2}", "{}"}
    requires FirstTruthy(texts) == code
    ensures PrimaryExample(ResponseNode(texts, Some(body))) == [Example(code, Json, body)]
  {
    TrimPlain(body);
    BareCodeStatus(texts, code);
  }

  lemma BareCodeStatus(texts: seq<Option<string>>, code: string)
    requires code in {"200", "404"}
    requires FirstTruthy(texts) == code
    ensures NormalizeStatus(texts) == code
  {
    TrimPlain(code);
    assert FirstDigitRun(code, 0) == Some(0) by { assert DigitRunAt(code, 0); }
    assert code[0..3] == code;
  }

  lemma FirstTruthyAfterNones(texts: seq<Option<string>>, code: string)
    requires code != "" && texts in {[Some(code)], [None, Some(code)], [None, None, Some(code)]}
    ensures FirstTruthy(texts) == code
  {
    if |texts| > 1 {
      assert texts[1..] in {[Some(code)], [None, Some(code)]};
      FirstTruthyAfterNones(texts[1..], code);
    }
  }

  /** Two unlabelled code blocks and no response node: statuses 200 and ex1. */
  lemma UnlabelledBlocksGetFallbackLabels()
    ensures ResponseExamples(OpBlock(None, None, [], ["{}", " [1] "]))
            == [Example("200", Json, "{}"), Example("ex1", Json, "[1]")]
  {
    var e1, e2 := Example("200", Json, "{}"), Example("ex1", Json, "[1]");
    TrimBoth();
    assert TrimAll(["{}", " [1] "]) == ["{}", "[1]"];
    LabelTwo("{}", "[1]");
    assert FallbackExamples(["{}", " [1] "]) == [e1, e2];
    var op := OpBlock(None, None, [], ["{}", " [1] "]);
    assert Candidates(op) == [e1, e2];
    DedupOfTwo(e1, e2);
  }

  lemma TrimBoth()
    ensures Trim("{}") == "{}" && Trim(" [1] ") == "[1]"
  {
    TrimPlain("{}");
    var s := " [1] ";
    assert SkipStart(s, 1) == 1;
    assert SkipStart(s, 0) == 1;
    assert SkipEnd(s, 1, 4) == 4;
    assert SkipEnd(s, 1, 5) == 4;
  }

  /** Two non-empty trimmed blocks are labelled `200` and `ex1`. */
  lemma LabelTwo(a: string, b: string)
    requires a != "" && b != ""
    ensures LabelBlocks([a, b]) == [Example("200", Json, a), Example("ex1", Json, b)]
  {
    assert [a, b][..1] == [a] && [a][..0] == [];
    assert LabelBlocks([a]) == [Example("200", Json, a)];
    assert FallbackLabel(1) == "ex1";
  }

  lemma DedupOfTwo(e1: Example, e2: Example)
    requires e1.status != e2.status
    ensures Dedup([e1, e2]) == [e1, e2]
  {
    assert [e1, e2][..1] == [e1] && [e1][..0] == [];
    assert Dedup([e1]) == [e1];
  }

  /** The status texts are trimmed only after the first present, non-empty one
      is chosen, so a blank first text shadows a later real status code. */
  lemma BlankStatusTextShadowsLaterCode()
    ensures NormalizeStatus([Some(" "), Some("404 Not Found")]) == "200"
  {
    var texts := [Some(" "), Some("404 Not Found")];
    assert FirstTruthy(texts) == " ";
    assert SkipStart(" ", 1) == 1;
    assert SkipStart(" ", 0) == 1;
    assert Trim(" ") == "";
    assert FirstDigitRun("", 0) == None;
  }
}
