/** The sidebar search filter: the `onInput` handler that `wireSearch` attaches
    to the search box.  It hides every operation link whose text does not
    contain the query, and every section whose heading does not contain it and
    whose operations are all hidden. */
module Search {
  import opened Dom
  import opened Text

  /** An `.op-link` button of the sidebar; `shown` is false when its
      `style.display` is `none`. */
  class OpLink {
    const text: string
    var shown: bool

    constructor (text: string)
      ensures this.text == text && shown
    {
      this.text := text;
      shown := true;
    }
  }

  /** A `.menu-section` item of the sidebar: the text of its `.menu-heading > div`
      element (`None` when absent) and its operation links in document order. */
  class MenuSection {
    const heading: Option<string>
    const ops: seq<OpLink>
    var shown: bool

    constructor (heading: Option<string>, ops: seq<OpLink>)
      ensures this.heading == heading && this.ops == ops && shown
    {
      this.heading := heading;
      this.ops := ops;
      shown := true;
    }
  }

  /** The query the handler filters with: the input's value, trimmed and lower-cased. */
  function Query(value: string): string {
    ToLower(Trim(value))
  }

  /** An operation link stays visible when the query is empty or its
      lower-cased text contains the query. */
  predicate OpMatches(q: string, text: string) {
    q == "" || Contains(ToLower(text), q)
  }

  /** The section's own heading matches: the query is empty or the lower-cased
      heading (empty when there is none) contains it. */
  predicate HeadingMatches(q: string, heading: Option<string>) {
    q == "" || Contains(ToLower(heading.GetOr("")), q)
  }

  /** The texts of a section's operation links. */
  function OpTexts(ops: seq<OpLink>): (texts: seq<string>)
    ensures |texts| == |ops|
    ensures forall j :: 0 <= j < |ops| ==> texts[j] == ops[j].text
  {
    seq(|ops|, j requires 0 <= j < |ops| => ops[j].text)
  }

  /** A section stays visible when its heading matches or at least one of its
      operations does. */
  predicate SectionMatches(q: string, heading: Option<string>, texts: seq<string>) {
    HeadingMatches(q, heading) || exists j | 0 <= j < |texts| :: OpMatches(q, texts[j])
  }

  function AllOps(items: seq<MenuSection>): set<OpLink> {
    set k, j | 0 <= k < |items| && 0 <= j < |items[k].ops| :: items[k].ops[j]
  }

  /** `onInput`: sets the visibility of every operation link and of every
      section of the sidebar for the current value of the search box. */
  method OnInput(value: string, items: seq<MenuSection>)
    modifies items, AllOps(items)
    ensures forall k, j :: 0 <= k < |items| && 0 <= j < |items[k].ops| ==>
      items[k].ops[j].shown == OpMatches(Query(value), items[k].ops[j].text)
    ensures forall k :: 0 <= k < |items| ==>
      items[k].shown == SectionMatches(Query(value), items[k].heading, OpTexts(items[k].ops))
  {
    var q := Query(value);
    for k := 0 to |items|
      invariant forall k', j :: 0 <= k' < k && 0 <= j < |items[k'].ops| ==>
        items[k'].ops[j].shown == OpMatches(q, items[k'].ops[j].text)
      invariant forall k' :: 0 <= k' < k ==>
        items[k'].shown == SectionMatches(q, items[k'].heading, OpTexts(items[k'].ops))
    {
      FilterSection(q, items[k]);
    }
  }

  /** The body of the handler's loop for one section: each operation link is
      shown or hidden, and `anyOpMatch` records whether one was shown. */
  method FilterSection(q: string, item: MenuSection)
    modifies item, set j | 0 <= j < |item.ops| :: item.ops[j]
    ensures forall j :: 0 <= j < |item.ops| ==> item.ops[j].shown == OpMatches(q, item.ops[j].text)
    ensures item.shown == SectionMatches(q, item.heading, OpTexts(item.ops))
  {
    var heading := ToLower(item.heading.GetOr(""));
    var anyOpMatch := false;
    for j := 0 to |item.ops|
      invariant anyOpMatch <==> exists j' :: 0 <= j' < j && OpMatches(q, item.ops[j'].text)
      invariant forall j' :: 0 <= j' < j ==> item.ops[j'].shown == OpMatches(q, item.ops[j'].text)
    {
      var op := item.ops[j];
      var txt := ToLower(op.text);
      var matches := q == "" || Contains(txt, q);
      op.shown := matches;
      if matches {
        anyOpMatch := true;
      }
    }
    var sectionMatch := q == "" || Contains(heading, q);
    item.shown := sectionMatch || anyOpMatch;
  }

  /** A query that trims to nothing shows every operation and every section. */
  lemma BlankQueryShowsAll(value: string, heading: Option<string>, texts: seq<string>)
    requires forall i :: 0 <= i < |value| ==> IsWhitespace(value[i])
    ensures forall j :: 0 <= j < |texts| ==> OpMatches(Query(value), texts[j])
    ensures SectionMatches(Query(value), heading, texts)
  {
    TrimEmptyIffBlank(value);
  }

  /** A query is empty exactly when the typed value is all white space. */
  lemma QueryEmptyIffBlank(value: string)
    ensures Query(value) == "" <==> forall i :: 0 <= i < |value| ==> IsWhitespace(value[i])
  {
    TrimEmptyIffBlank(value);
  }

  /** Matching ignores the case of the operation's text: two texts with the
      same lower-case form match the same queries, and lower-casing a text
      beforehand changes nothing. */
  lemma OpMatchesIgnoresCase(q: string, a: string, b: string)
    ensures ToLower(a) == ToLower(b) ==> (OpMatches(q, a) <==> OpMatches(q, b))
    ensures OpMatches(q, ToLower(a)) == OpMatches(q, a)
  {
    ToLowerIdempotent(a);
  }

  /** Typing more characters only hides: an operation that matches a longer
      query matches every prefix of it. */
  lemma NarrowingQueryHides(q: string, more: string, text: string)
    ensures OpMatches(q + more, text) ==> OpMatches(q, text)
  {
    var t := ToLower(text);
    if q != "" && Contains(t, q + more) {
      var i :| 0 <= i <= |t| - |q + more| && OccursAt(t, q + more, i);
      assert t[i..i + |q|] == (q + more)[..|q|] == q;
      assert OccursAt(t, q, i);
    }
  }

  /** The same holds for sections: a longer query never reveals a section the
      shorter one hid. */
  lemma NarrowingQueryHidesSections(q: string, more: string, heading: Option<string>, texts: seq<string>)
    ensures SectionMatches(q + more, heading, texts) ==> SectionMatches(q, heading, texts)
  {
    var h := ToLower(heading.GetOr(""));
    if q != "" && Contains(h, q + more) {
      var i :| 0 <= i <= |h| - |q + more| && OccursAt(h, q + more, i);
      assert h[i..i + |q|] == (q + more)[..|q|] == q;
      assert OccursAt(h, q, i);
    }
    forall j | 0 <= j < |texts| ensures OpMatches(q + more, texts[j]) ==> OpMatches(q, texts[j]) {
      NarrowingQueryHides(q, more, texts[j]);
    }
  }
}
