/** `removeZeroCounts`: after a rebuild, the count indicator of every sidebar
    group whose text is "0" is removed; the groups themselves stay. */
module Sidebar {
  import opened Text

  /** A count indicator shows zero when its trimmed text is exactly "0". */
  predicate IsZeroCount(text: string) {
    Trim(text) == "0"
  }

  /** The count labels that survive pruning, in their original order. */
  function KeepNonZero(labels: seq<string>): seq<string> {
    if labels == [] then []
    else
      var last := labels[|labels| - 1];
      KeepNonZero(labels[..|labels| - 1]) + (if IsZeroCount(last) then [] else [last])
  }

  lemma KeepNonZeroStep(labels: seq<string>, i: nat)
    requires i < |labels|
    ensures KeepNonZero(labels[..i + 1]) ==
            KeepNonZero(labels[..i]) + (if IsZeroCount(labels[i]) then [] else [labels[i]])
  {
    assert labels[..i + 1][..i] == labels[..i];
  }

  /** Pruning works label by label: pruning a concatenation is concatenating
      the pruned parts, so the survivors keep their relative order. */
  lemma {:induction false} KeepNonZeroAppend(a: seq<string>, b: seq<string>)
    ensures KeepNonZero(a + b) == KeepNonZero(a) + KeepNonZero(b)
    decreases |b|
  {
    if b == [] {
      assert a + b == a;
    } else {
      var init := b[..|b| - 1];
      assert (a + b)[..|a + b| - 1] == a + init;
      KeepNonZeroAppend(a, init);
    }
  }

  /** Exactly the zero labels go: every other label keeps its multiplicity. */
  lemma {:induction false} KeepNonZeroCounts(labels: seq<string>)
    ensures forall x :: multiset(KeepNonZero(labels))[x] == if IsZeroCount(x) then 0 else multiset(labels)[x]
  {
    if labels != [] {
      var init := labels[..|labels| - 1];
      KeepNonZeroCounts(init);
      assert labels == init + [labels[|labels| - 1]];
    }
  }

  /** The `#sidebar-menu` element, reduced to the texts of its `.count`
      elements in document order. */
  class SidebarMenu {
    var countLabels: seq<string>

    constructor (countLabels: seq<string>)
      ensures this.countLabels == countLabels
    {
      this.countLabels := countLabels;
    }

    /** `removeZeroCounts`: walks the `.count` elements and removes each one
        whose trimmed text is "0". */
    method RemoveZeroCounts()
      modifies this
      ensures countLabels == KeepNonZero(old(countLabels))
    {
      var elements := countLabels;
      var position := 0;
      for i := 0 to |elements|
        invariant position == |KeepNonZero(elements[..i])|
        invariant countLabels == KeepNonZero(elements[..i]) + elements[i..]
      {
        position := VisitLabel(elements, i, position);
      }
      assert elements[..|elements|] == elements;
    }

    /** One turn of the `forEach`: the label under the cursor, at `position`
        among the current labels, is removed when it shows zero; the new
        cursor position is returned. */
    method VisitLabel(elements: seq<string>, i: nat, position: nat) returns (next: nat)
      requires i < |elements|
      requires position == |KeepNonZero(elements[..i])|
      requires countLabels == KeepNonZero(elements[..i]) + elements[i..]
      modifies this`countLabels
      ensures next == |KeepNonZero(elements[..i + 1])|
      ensures countLabels == KeepNonZero(elements[..i + 1]) + elements[i + 1..]
    {
      ghost var kept := KeepNonZero(elements[..i]);
      KeepNonZeroStep(elements, i);
      SplitAt(kept, elements, i);
      if IsZeroCount(elements[i]) {
        countLabels := countLabels[..position] + countLabels[position + 1..];
        next := position;
      } else {
        next := position + 1;
      }
    }
  }

  /** The labels still to visit follow the kept ones: the cursor's label, then the rest. */
  lemma SplitAt(kept: seq<string>, elements: seq<string>, i: nat)
    requires i < |elements|
    ensures var s := kept + elements[i..];
            && s[..|kept|] == kept && s[|kept|] == elements[i]
            && s[|kept| + 1..] == elements[i + 1..]
            && s == (kept + [elements[i]]) + elements[i + 1..]
  {
    var s := kept + elements[i..];
    assert s[|kept| + 1..] == elements[i + 1..];
    assert s == (kept + [elements[i]]) + elements[i + 1..];
  }
}
