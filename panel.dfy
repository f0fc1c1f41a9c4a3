/** The response panel of `updateRightPanel`: the method badge and path of the
    operation being inspected, one status tab per response example, and the
    content type and code of the selected tab. */
module Panel {
  import opened Dom
  import opened Text
  import opened Responses

  /** The code area's text when the operation has no response example. */
  const NoExamplePlaceholder: string := "// Nenhum exemplo de resposta encontrado."

  /** Tab flags where exactly position `i` of `n` is set. */
  function OnlyAt(n: nat, i: nat): (flags: seq<bool>)
    ensures |flags| == n
    ensures forall k :: 0 <= k < n ==> (flags[k] <==> k == i)
  {
    seq(n, k => k == i)
  }

  function CountTrue(flags: seq<bool>): nat {
    if flags == [] then 0
    else CountTrue(flags[..|flags| - 1]) + (if flags[|flags| - 1] then 1 else 0)
  }

  /** Exactly one of the tabs is set when `i` names one of them. */
  lemma {:induction false} OnlyAtExactlyOne(n: nat, i: nat)
    requires i < n
    ensures CountTrue(OnlyAt(n, i)) == 1
  {
    NoneBefore(OnlyAt(n, i), i);
    var flags := OnlyAt(n, i);
    CountSuffix(flags, i + 1);
  }

  lemma {:induction false} NoneBefore(flags: seq<bool>, i: nat)
    requires i <= |flags|
    requires forall k :: 0 <= k < i ==> !flags[k]
    ensures CountTrue(flags[..i]) == 0
  {
    if i > 0 {
      assert flags[..i][..i - 1] == flags[..i - 1];
      NoneBefore(flags, i - 1);
    }
  }

  lemma {:induction false} CountSuffix(flags: seq<bool>, m: nat)
    requires 0 < m <= |flags|
    requires CountTrue(flags[..m - 1]) == 0 && flags[m - 1]
    requires forall k :: m <= k < |flags| ==> !flags[k]
    ensures CountTrue(flags[..m]) == 1
    ensures CountTrue(flags) == 1
    decreases |flags| - m
  {
    assert flags[..m][..m - 1] == flags[..m - 1];
    if m < |flags| {
      assert flags[..m + 1][..m] == flags[..m];
      CountAfter(flags, m + 1);
    } else {
      assert flags[..m] == flags;
    }
  }

  lemma {:induction false} CountAfter(flags: seq<bool>, m: nat)
    requires 0 < m <= |flags|
    requires CountTrue(flags[..m - 1]) == 1
    requires forall k :: m - 1 <= k < |flags| ==> !flags[k]
    ensures CountTrue(flags) == 1
    decreases |flags| - m
  {
    assert flags[..m][..m - 1] == flags[..m - 1];
    if m < |flags| {
      CountAfter(flags, m + 1);
    } else {
      assert flags[..m] == flags;
    }
  }

  /** The class of the method badge: the lower-cased method, or `default`. */
  function MethodClass(verb: string): string {
    "method-pill " + (if verb != "" then ToLower(verb) else "default")
  }

  /** The text of the method badge: the method, or `OP`. */
  function MethodLabel(verb: string): string {
    if verb != "" then verb else "OP"
  }

  /** The badge's variant follows the method case-insensitively: methods that
      lower-case alike get the same class. */
  lemma MethodClassIgnoresCase(a: string, b: string)
    requires ToLower(a) == ToLower(b)
    ensures MethodClass(a) == MethodClass(b)
  {
    assert |a| == |b|;
  }

  /** An empty method falls back to the default class and the `OP` label, and
      a non-empty one is shown as read. */
  lemma MethodBadgeFallback(verb: string)
    ensures MethodClass("") == "method-pill default" && MethodLabel("") == "OP"
    ensures verb != "" ==> MethodLabel(verb) == verb && MethodClass(verb) == "method-pill " + ToLower(verb)
  {
  }

  /** The trimmed text of a summary element, empty when it is absent. */
  function SummaryText(o: Option<string>): string {
    Trim(o.GetOr(""))
  }

  /** The panel's elements: `#code-method`, `#code-path`, the tabs of
      `#response-badges` (their examples, `active` class and `aria-pressed`
      value), `#response-content-type` and the code of `#response-code-area`. */
  class ResponsePanel {
    var methodClass: string
    var methodText: string
    var pathText: string
    var pathTitle: string
    var contentType: string
    var code: string
    var tabs: seq<Example>
    var active: seq<bool>
    var pressed: seq<bool>

    ghost predicate Valid()
      reads this
    {
      && |active| == |tabs| && |pressed| == |tabs|
      && forall k :: 0 <= k < |tabs| ==> tabs[k].contentType != ""
    }

    /** The panel shows operation `op`: its method and path, its examples as
        tabs, and either the first tab selected or the placeholder. */
    ghost predicate ShowsOperation(op: OpBlock)
      reads this
    {
      && methodClass == MethodClass(SummaryText(op.methodText))
      && methodText == MethodLabel(SummaryText(op.methodText))
      && pathText == SummaryText(op.pathText)
      && pathTitle == SummaryText(op.pathText)
      && tabs == ResponseExamples(op)
      && (tabs == [] ==> contentType == Json && code == NoExamplePlaceholder)
      && (tabs != [] ==>
            && active == OnlyAt(|tabs|, 0) && pressed == OnlyAt(|tabs|, 0)
            && contentType == tabs[0].contentType && code == tabs[0].text)
    }

    constructor ()
      ensures Valid() && tabs == [] && code == ""
    {
      methodClass, methodText := "method-pill default", "OP";
      pathText, pathTitle := "", "";
      contentType, code := Json, "";
      tabs, active, pressed := [], [], [];
    }

    /** `updateRightPanel`: the operation shown is the explicit argument, else
        the last clicked block, else the first open block; with none the panel
        is reset to the neutral label. */
    method UpdateRightPanel(preferred: Option<OpBlock>, lastClicked: Option<OpBlock>, firstOpen: Option<OpBlock>)
      modifies this
      ensures Valid()
      ensures preferred.Some? ==> ShowsOperation(preferred.value)
      ensures preferred.None? && lastClicked.Some? ==> ShowsOperation(lastClicked.value)
      ensures preferred.None? && lastClicked.None? && firstOpen.Some? ==> ShowsOperation(firstOpen.value)
      ensures preferred.None? && lastClicked.None? && firstOpen.None? ==>
        && methodClass == "method-pill default" && methodText == "OP" && pathText == ""
        && tabs == [] && code == ""
        && contentType == old(contentType) && pathTitle == old(pathTitle)
    {
      tabs, active, pressed := [], [], [];
      code := "";

      var opblock := if preferred.Some? then preferred else if lastClicked.Some? then lastClicked else firstOpen;
      if opblock.None? {
        methodClass := "method-pill default";
        methodText := "OP";
        pathText := "";
        return;
      }
      ShowOperation(opblock.value);
    }

    /** The part of `updateRightPanel` after an operation has been resolved. */
    method ShowOperation(op: OpBlock)
      requires tabs == [] && active == [] && pressed == []
      modifies this
      ensures Valid() && ShowsOperation(op)
    {
      ShowSummary(op);
      var examples := ExtractResponseExamples(op);
      ExamplesAreJson(op);
      ShowExamples(examples);
    }

    /** The method badge and the path display of `op`. */
    method ShowSummary(op: OpBlock)
      modifies this`methodClass, this`methodText, this`pathText, this`pathTitle
      ensures methodClass == MethodClass(SummaryText(op.methodText))
      ensures methodText == MethodLabel(SummaryText(op.methodText))
      ensures pathText == SummaryText(op.pathText) && pathTitle == SummaryText(op.pathText)
    {
      var verb := SummaryText(op.methodText);
      var path := SummaryText(op.pathText);
      methodClass := "method-pill " + (if verb != "" then ToLower(verb) else "default");
      methodText := if verb != "" then verb else "OP";
      pathText := path;
      pathTitle := path;
    }

    /** The examples part of `updateRightPanel`: the placeholder when there is
        none, otherwise one tab per example with the first one selected. */
    method ShowExamples(examples: seq<Example>)
      requires tabs == [] && active == [] && pressed == []
      requires forall k :: 0 <= k < |examples| ==> examples[k].contentType == Json
      modifies this`tabs, this`active, this`pressed, this`contentType, this`code
      ensures Valid() && tabs == examples
      ensures examples == [] ==> contentType == Json && code == NoExamplePlaceholder
      ensures examples != [] ==>
        && active == OnlyAt(|examples|, 0) && pressed == OnlyAt(|examples|, 0)
        && contentType == examples[0].contentType && code == examples[0].text
    {
      if examples == [] {
        contentType := Json;
        code := NoExamplePlaceholder;
        return;
      }
      AddTabs(examples);

      var first := examples[0];
      contentType := if first.contentType != "" then first.contentType else Json;
      code := first.text;
    }

    /** The badge loop of `updateRightPanel`: one tab per example, in order;
        only the first is active and pressed. */
    method AddTabs(examples: seq<Example>)
      requires tabs == [] && active == [] && pressed == []
      modifies this`tabs, this`active, this`pressed
      ensures tabs == examples
      ensures active == OnlyAt(|examples|, 0) && pressed == OnlyAt(|examples|, 0)
    {
      for idx := 0 to |examples|
        invariant tabs == examples[..idx]
        invariant active == OnlyAt(idx, 0) && pressed == OnlyAt(idx, 0)
      {
        tabs := tabs + [examples[idx]];
        active := active + [idx == 0];
        pressed := pressed + [idx == 0];
      }
    }

    /** The click handler of tab `i`: every tab is reset, then tab `i` is
        marked active and pressed, and its example is shown. */
    method ClickTab(i: nat)
      requires Valid() && i < |tabs|
      modifies this
      ensures Valid() && tabs == old(tabs)
      ensures active == OnlyAt(|tabs|, i) && pressed == OnlyAt(|tabs|, i)
      ensures contentType == tabs[i].contentType && code == tabs[i].text
      ensures methodClass == old(methodClass) && methodText == old(methodText)
      ensures pathText == old(pathText) && pathTitle == old(pathTitle)
    {
      for j := 0 to |tabs|
        modifies this`active, this`pressed
        invariant |active| == |tabs| && |pressed| == |tabs|
        invariant forall k :: 0 <= k < j ==> !active[k] && !pressed[k]
      {
        active := active[j := false];
        pressed := pressed[j := false];
      }
      active := active[i := true];
      pressed := pressed[i := true];
      var ex := tabs[i];
      contentType := if ex.contentType != "" then ex.contentType else Json;
      code := ex.text;
    }
  }
}
