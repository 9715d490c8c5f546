/** `ProgressiveDisclosure`: questions that reveal follow-up fields through
    their `data-toggle` targets, the hiding (and clearing) of whatever a
    changed answer no longer applies to, and the "out" check that swaps the
    navigation buttons for an exit button. */
module Disclosure {
  import opened Base
  import opened Reach

  /** The `type` of an `input`, as far as clearing and checking go. */
  datatype InputKind = RadioInput | CheckboxInput | OtherInput

  datatype Tag = Input(kind: InputKind) | SelectTag | TextAreaTag | FieldsetTag | OtherTag

  /** One element of the page, in document order. `parent` is the position
      of the enclosing element, or -1 at the top. `toggles` is the
      `data-toggle` attribute split at commas and trimmed (empty when the
      element has none). */
  datatype Element = Element(id: string, tag: Tag, parent: int, name: string, toggles: seq<string>)

  /** Document order puts every element after its parent. */
  predicate Structured(els: seq<Element>) {
    forall i :: 0 <= i < |els| ==> -1 <= els[i].parent < i
  }

  /** `input`, `select` and `textarea`: what `hideWithSubfields` clears. */
  predicate IsField(t: Tag) {
    t.Input? || t == SelectTag || t == TextAreaTag
  }

  /** Radio buttons and checkboxes are cleared by unchecking them. */
  predicate IsBox(t: Tag) {
    t == Input(RadioInput) || t == Input(CheckboxInput)
  }

  /** `a` contains `d` (strictly). */
  predicate IsAncestor(els: seq<Element>, a: int, d: int)
    requires Structured(els) && 0 <= d < |els|
    decreases d
  {
    var p := els[d].parent;
    p >= 0 && (p == a || IsAncestor(els, a, p))
  }

  /** `document.getElementById(id)`: the first element with that id, or -1
      when there is none; no element matches the empty id. */
  function Resolve(els: seq<Element>, id: string): (r: int)
    ensures -1 <= r < |els|
    ensures r == -1 <==> id == "" || forall i :: 0 <= i < |els| ==> els[i].id != id
    ensures r >= 0 ==> els[r].id == id && forall i :: 0 <= i < r ==> els[i].id != id
  {
    if id == "" || els == [] then -1
    else if els[0].id == id then 0
    else
      var j := Resolve(els[1..], id);
      if j < 0 then -1 else j + 1
  }

  /** The elements a list of target ids names, in order; ids that name no
      element are skipped. */
  function Resolved(els: seq<Element>, ids: seq<string>): (r: seq<int>)
    ensures forall k :: 0 <= k < |r| ==> 0 <= r[k] < |els|
    ensures forall t :: t in r <==> exists id :: id in ids && Resolve(els, id) == t && t >= 0
  {
    if ids == [] then []
    else
      var front, last := ids[..|ids| - 1], ids[|ids| - 1];
      assert forall id :: id in ids <==> id in front || id == last;
      var t := Resolve(els, last);
      var r := Resolved(els, front) + (if t >= 0 then [t] else []);
      assert forall u :: u in r <==> exists id :: id in ids && Resolve(els, id) == u && u >= 0 by {
        forall u ensures u in r <==> exists id :: id in ids && Resolve(els, id) == u && u >= 0 {
          if u in Resolved(els, front) {
            var id :| id in front && Resolve(els, id) == u && u >= 0;
            assert id in ids;
          } else if t >= 0 && u == t {
            assert last in ids;
          }
        }
      }
      r
  }

  /** The elements strictly inside `e`, in document order:
      `e.querySelectorAll(...)` before its selector is applied. */
  function Descendants(els: seq<Element>, e: int): (r: seq<int>)
    requires Structured(els)
    ensures forall j :: j in r <==> 0 <= j < |els| && IsAncestor(els, e, j)
  {
    DescendantsBelow(els, e, |els|)
  }

  function DescendantsBelow(els: seq<Element>, e: int, n: nat): (r: seq<int>)
    requires Structured(els) && n <= |els|
    ensures forall j :: j in r <==> 0 <= j < n && IsAncestor(els, e, j)
  {
    if n == 0 then []
    else DescendantsBelow(els, e, n - 1) + (if IsAncestor(els, e, n - 1) then [n - 1] else [])
  }

  /** `document.querySelectorAll('input[name="<name>"]')`. */
  function NamedInputs(els: seq<Element>, name: string, n: nat): (r: seq<int>)
    requires n <= |els|
    ensures forall j :: j in r <==> 0 <= j < n && els[j].tag.Input? && els[j].name == name
  {
    if n == 0 then []
    else NamedInputs(els, name, n - 1) + (if els[n - 1].tag.Input? && els[n - 1].name == name then [n - 1] else [])
  }

  /** The targets the toggles of the elements `js` name, in order. */
  function TargetsOf(els: seq<Element>, js: seq<int>): (r: seq<int>)
    requires forall j :: j in js ==> 0 <= j < |els|
    ensures forall k :: 0 <= k < |r| ==> 0 <= r[k] < |els|
    ensures forall t :: t in r <==> exists j :: j in js && t in Resolved(els, els[j].toggles)
  {
    if js == [] then []
    else
      var front, last := js[..|js| - 1], js[|js| - 1];
      assert forall j :: j in js <==> j in front || j == last;
      assert last in js;
      TargetsOf(els, front) + Resolved(els, els[last].toggles)
  }

  /** The targets of every toggle strictly inside `e`: what
      `hideWithSubfields(e)` recurses into. */
  function Targets(els: seq<Element>, e: int): (r: seq<int>)
    requires Structured(els)
    ensures forall k :: 0 <= k < |r| ==> 0 <= r[k] < |els|
    ensures forall t :: t in r <==> exists j :: 0 <= j < |els| && IsAncestor(els, e, j) && t in Resolved(els, els[j].toggles)
  {
    TargetsOf(els, Descendants(els, e))
  }

  /** The targets of every `input` named `name`: what `hideOtherTargets`
      hides for a change in that group. */
  function GroupTargets(els: seq<Element>, name: string): (r: seq<int>)
    ensures forall k :: 0 <= k < |r| ==> 0 <= r[k] < |els|
    ensures forall t :: t in r <==>
      exists j :: 0 <= j < |els| && els[j].tag.Input? && els[j].name == name && t in Resolved(els, els[j].toggles)
  {
    TargetsOf(els, NamedInputs(els, name, |els|))
  }

  /** `x.closest("fieldset")`: `x` itself or its nearest enclosing
      fieldset, or -1. */
  function ClosestFieldset(els: seq<Element>, x: int): (f: int)
    requires Structured(els) && 0 <= x < |els|
    ensures -1 <= f <= x
    ensures f >= 0 ==> els[f].tag == FieldsetTag && (f == x || IsAncestor(els, f, x))
    ensures f < 0 ==>
      && els[x].tag != FieldsetTag
      && forall a :: 0 <= a < |els| && IsAncestor(els, a, x) ==> els[a].tag != FieldsetTag
    ensures f >= 0 ==>
      forall a :: 0 <= a < |els| && IsAncestor(els, a, x) && els[a].tag == FieldsetTag ==>
        a == f || IsAncestor(els, a, f)
    decreases x
  {
    if els[x].tag == FieldsetTag then x
    else if els[x].parent < 0 then -1
    else ClosestFieldset(els, els[x].parent)
  }

  /** The fieldsets among the siblings after `f`, in order: the
      `nextElementSibling` walk of `hideOtherTargets`. */
  function LaterFieldsets(els: seq<Element>, f: int): (r: seq<int>)
    requires 0 <= f < |els|
    ensures forall s :: s in r <==> f < s < |els| && els[s].parent == els[f].parent && els[s].tag == FieldsetTag
    ensures forall k :: 0 <= k < |r| ==> f < r[k] < |els|
  {
    LaterFieldsetsBelow(els, f, |els|)
  }

  function LaterFieldsetsBelow(els: seq<Element>, f: int, n: nat): (r: seq<int>)
    requires 0 <= f < |els| && n <= |els|
    ensures forall s :: s in r <==> f < s < n && els[s].parent == els[f].parent && els[s].tag == FieldsetTag
    ensures forall k :: 0 <= k < |r| ==> f < r[k] < n
  {
    if n <= f + 1 then []
    else
      var s := n - 1;
      LaterFieldsetsBelow(els, f, n - 1)
        + (if els[s].parent == els[f].parent && els[s].tag == FieldsetTag then [s] else [])
  }

  /** The page's target graph: the targets `hideWithSubfields` recurses
      into, for each element. */
  function Edges(els: seq<Element>): (g: seq<seq<int>>)
    requires Structured(els)
    ensures |g| == |els| && forall e :: 0 <= e < |els| ==> g[e] == Targets(els, e)
  {
    seq(|els|, e requires 0 <= e < |els| => Targets(els, e))
  }

  /** A measure that drops along every target edge: the recursion of
      `hideWithSubfields` terminates exactly on pages that have one. */
  ghost predicate WellRanked(els: seq<Element>, rank: seq<nat>)
    requires Structured(els)
  {
    Ranked(Edges(els), rank)
  }

  /** One round of a loop that hides `ts` in turn after hiding `base`. */
  lemma HideStep(els: seq<Element>, rank: seq<nat>, s: State, base: set<int>, ts: seq<int>, bound: nat, i: int)
    requires Structured(els) && WellRanked(els, rank) && Fits(els, s)
    requires forall k :: 0 <= k < |ts| ==> 0 <= ts[k] < |els| && rank[ts[k]] < bound
    requires 0 <= i < |ts|
    ensures HideAll(els, HideAll(els, s, base + ReachList(Edges(els), rank, ts[..i], bound)), ReachSet(Edges(els), rank, ts[i]))
      == HideAll(els, s, base + ReachList(Edges(els), rank, ts[..i + 1], bound))
  {
    var a, b := ReachList(Edges(els), rank, ts[..i], bound), ReachSet(Edges(els), rank, ts[i]);
    ReachListLast(Edges(els), rank, ts, bound, i);
    HideAllCompose(els, s, base + a, b);
    assert base + a + b == base + (a + b);
  }

  /** The visible state of the page: the `hidden` class, `checked` and
      `value` of every element. */
  datatype State = State(hidden: seq<bool>, checked: seq<bool>, values: seq<string>)

  predicate Fits(els: seq<Element>, s: State) {
    |s.hidden| == |els| && |s.checked| == |els| && |s.values| == |els|
  }

  /** `x` lies inside one of the elements of `r`. */
  ghost predicate Covered(els: seq<Element>, r: set<int>, x: int)
    requires Structured(els) && 0 <= x < |els|
  {
    exists a :: a in r && IsAncestor(els, a, x)
  }

  /** The state after every element of `r` has been hidden and the fields
      inside it cleared: boxes unchecked, other fields emptied. These
      writes only ever set constants, so their order does not matter. */
  ghost function HideAll(els: seq<Element>, s: State, r: set<int>): (s': State)
    requires Structured(els) && Fits(els, s)
    ensures Fits(els, s')
  {
    State(
      seq(|els|, x requires 0 <= x < |els| => s.hidden[x] || x in r),
      seq(|els|, x requires 0 <= x < |els| => s.checked[x] && !(IsBox(els[x].tag) && Covered(els, r, x))),
      seq(|els|, x requires 0 <= x < |els| =>
        if IsField(els[x].tag) && !IsBox(els[x].tag) && Covered(els, r, x) then "" else s.values[x]))
  }

  lemma HideAllNothing(els: seq<Element>, s: State)
    requires Structured(els) && Fits(els, s)
    ensures HideAll(els, s, {}) == s
  {
  }

  /** Hiding `a` and then `b` is hiding both at once. */
  lemma HideAllCompose(els: seq<Element>, s: State, a: set<int>, b: set<int>)
    requires Structured(els) && Fits(els, s)
    ensures HideAll(els, HideAll(els, s, a), b) == HideAll(els, s, a + b)
  {
    var l, r := HideAll(els, HideAll(els, s, a), b), HideAll(els, s, a + b);
    forall x | 0 <= x < |els|
      ensures l.checked[x] == r.checked[x] && l.values[x] == r.values[x]
    {
      assert Covered(els, a + b, x) <==> Covered(els, a, x) || Covered(els, b, x);
    }
  }

  /** Hiding is idempotent. */
  lemma HideAllTwice(els: seq<Element>, s: State, r: set<int>)
    requires Structured(els) && Fits(els, s)
    ensures HideAll(els, HideAll(els, s, r), r) == HideAll(els, s, r)
  {
    HideAllCompose(els, s, r, r);
    assert r + r == r;
  }

  /** The elements of `r` end up hidden, the boxes inside them unchecked and
      the other fields inside them empty; elements outside `r` keep their
      class, and fields outside every element of `r` keep their contents. */
  lemma HideAllEffect(els: seq<Element>, s: State, r: set<int>, x: int)
    requires Structured(els) && Fits(els, s) && 0 <= x < |els|
    ensures var s' := HideAll(els, s, r);
      && (x in r ==> s'.hidden[x])
      && (x !in r ==> s'.hidden[x] == s.hidden[x])
      && (forall a :: a in r && IsAncestor(els, a, x) && IsBox(els[x].tag) ==> !s'.checked[x])
      && (forall a :: a in r && IsAncestor(els, a, x) && IsField(els[x].tag) && !IsBox(els[x].tag) ==> s'.values[x] == "")
      && (!Covered(els, r, x) ==> s'.checked[x] == s.checked[x] && s'.values[x] == s.values[x])
  {
  }

  /** `x` is a radio button or checkbox that is checked: `input:checked`. */
  predicate Ticked(els: seq<Element>, checked: seq<bool>, x: int)
    requires |checked| == |els| && 0 <= x < |els|
  {
    IsBox(els[x].tag) && checked[x]
  }

  /** The page: its elements, which never change, and their state. */
  class Page {
    const els: seq<Element>
    /** A measure that shows the page's target graph has no cycle. */
    ghost const rank: seq<nat>
    var hidden: seq<bool>
    var checked: seq<bool>
    var values: seq<string>

    ghost predicate Valid()
      reads this
    {
      && Structured(els) && WellRanked(els, rank)
      && |hidden| == |els| && |checked| == |els| && |values| == |els|
    }

    function Snapshot(): State
      reads this
    {
      State(hidden, checked, values)
    }

    constructor (els: seq<Element>, ghost rank: seq<nat>, hidden: seq<bool>, checked: seq<bool>, values: seq<string>)
      requires Structured(els) && WellRanked(els, rank)
      requires |hidden| == |els| && |checked| == |els| && |values| == |els|
      ensures Valid() && this.els == els && this.rank == rank
      ensures Snapshot() == State(hidden, checked, values)
    {
      this.els := els;
      this.rank := rank;
      this.hidden := hidden;
      this.checked := checked;
      this.values := values;
    }

    /** Adds the `hidden` class to `e` and clears every field inside it. */
    method HideOne(e: int)
      requires Valid() && 0 <= e < |els|
      modifies this
      ensures Valid()
      ensures Snapshot() == HideAll(els, old(Snapshot()), {e})
    {
      ghost var goal := HideAll(els, Snapshot(), {e});
      hidden := hidden[e := true];
      var x := 0;
      while x < |els|
        invariant 0 <= x <= |els| && Valid()
        invariant hidden == goal.hidden
        invariant forall y :: 0 <= y < x ==> checked[y] == goal.checked[y] && values[y] == goal.values[y]
        invariant forall y :: x <= y < |els| ==> checked[y] == old(checked)[y] && values[y] == old(values)[y]
      {
        assert Covered(els, {e}, x) <==> IsAncestor(els, e, x) by {
          if IsAncestor(els, e, x) {
            assert e in {e};
          }
        }
        if IsAncestor(els, e, x) && IsField(els[x].tag) {
          if IsBox(els[x].tag) {
            checked := checked[x := false];
          } else {
            values := values[x := ""];
          }
        }
        x := x + 1;
      }
    }

    /** Removes the `hidden` class from `t`. */
    method Reveal(t: int)
      requires Valid() && 0 <= t < |els|
      modifies this
      ensures Valid()
      ensures Snapshot() == old(Snapshot()).(hidden := old(hidden)[t := false])
    {
      hidden := hidden[t := false];
    }

    /** Sets or removes the `hidden` class of `b`. */
    method SetHidden(b: int, h: bool)
      requires Valid() && 0 <= b < |els|
      modifies this
      ensures Valid()
      ensures Snapshot() == old(Snapshot()).(hidden := old(hidden)[b := h])
    {
      hidden := hidden[b := h];
    }
  }

  /** The five answers in step 1 that make the applicant ineligible; each
      condition is a list of ids that must all be checked. */
  const OutConditions: seq<seq<string>> := [["s1q1-op2"], ["s1q2-op2"], ["s1q4-op2"], ["s1q5-op2"], ["s1q6-op2"]]

  /** The ids of the checked radio buttons and checkboxes, in document
      order. */
  function CheckedIds(els: seq<Element>, checked: seq<bool>): (ids: seq<string>)
    requires |checked| == |els|
    ensures forall id :: id in ids <==> exists x :: 0 <= x < |els| && Ticked(els, checked, x) && els[x].id == id
  {
    CheckedIdsBelow(els, checked, |els|)
  }

  function CheckedIdsBelow(els: seq<Element>, checked: seq<bool>, n: nat): (ids: seq<string>)
    requires |checked| == |els| && n <= |els|
    ensures forall id :: id in ids <==> exists x :: 0 <= x < n && Ticked(els, checked, x) && els[x].id == id
  {
    if n == 0 then []
    else CheckedIdsBelow(els, checked, n - 1) + (if Ticked(els, checked, n - 1) then [els[n - 1].id] else [])
  }

  /** `condition.every(id => selected.includes(id))`. */
  function AllSelected(condition: seq<string>, selected: seq<string>): (r: bool)
    ensures r <==> forall id :: id in condition ==> id in selected
  {
    if condition == [] then true
    else
      assert forall id :: id in condition <==> id == condition[0] || id in condition[1..];
      condition[0] in selected && AllSelected(condition[1..], selected)
  }

  /** `conditions.some(c => c.every(id => selected.includes(id)))`. */
  function IsOut(conditions: seq<seq<string>>, selected: seq<string>): (r: bool)
    ensures r <==> exists c :: c in conditions && forall id :: id in c ==> id in selected
  {
    if conditions == [] then false
    else
      assert forall c :: c in conditions <==> c == conditions[0] || c in conditions[1..];
      assert conditions[0] in conditions;
      AllSelected(conditions[0], selected) || IsOut(conditions[1..], selected)
  }

  /** With the wizard's conditions, the applicant is out exactly when one of
      the five ineligible answers is checked. */
  lemma OutMeansIneligibleAnswer(selected: seq<string>)
    ensures IsOut(OutConditions, selected) <==>
      "s1q1-op2" in selected || "s1q2-op2" in selected || "s1q4-op2" in selected
      || "s1q5-op2" in selected || "s1q6-op2" in selected
  {
    if IsOut(OutConditions, selected) {
      var c :| c in OutConditions && forall id :: id in c ==> id in selected;
      assert c[0] in c;
    } else {
      assert OutConditions[0] in OutConditions && OutConditions[0][0] in OutConditions[0];
      assert OutConditions[1] in OutConditions && OutConditions[1][0] in OutConditions[1];
      assert OutConditions[2] in OutConditions && OutConditions[2][0] in OutConditions[2];
      assert OutConditions[3] in OutConditions && OutConditions[3][0] in OutConditions[3];
      assert OutConditions[4] in OutConditions && OutConditions[4][0] in OutConditions[4];
    }
  }

  /** The buttons `updateNavigationButtons` finds in the active step. */
  datatype StepButtons = StepButtons(next: Option<int>, back: Option<int>, out: Option<int>)

  /** The step's buttons exist wherever the code dereferences them: with an
      out button, the next and back buttons are there too. */
  predicate ButtonsPresent(buttons: Option<StepButtons>, n: nat) {
    buttons.Some? && buttons.value.out.Some? ==>
      && buttons.value.next.Some? && buttons.value.back.Some?
      && buttons.value.next.value < n && buttons.value.back.value < n && buttons.value.out.value < n
      && 0 <= buttons.value.next.value && 0 <= buttons.value.back.value && 0 <= buttons.value.out.value
  }

  /** The `hidden` flags `updateNavigationButtons(isOut)` leaves: out shows
      only the out button, otherwise only next and back show; with no active
      step or no out button nothing changes. */
  function NavHidden(hidden: seq<bool>, isOut: bool, buttons: Option<StepButtons>): (h: seq<bool>)
    requires ButtonsPresent(buttons, |hidden|)
    ensures |h| == |hidden|
    ensures buttons.None? || buttons.value.out.None? ==> h == hidden
    ensures buttons.Some? && buttons.value.out.Some? ==>
      var b := buttons.value;
      && h[b.out.value] == !isOut
      && (b.next.value != b.out.value ==> h[b.next.value] == isOut)
      && (b.back.value != b.out.value ==> h[b.back.value] == isOut)
      && forall y :: 0 <= y < |hidden| && y != b.next.value && y != b.back.value && y != b.out.value ==> h[y] == hidden[y]
  {
    if buttons.None? || buttons.value.out.None? then hidden
    else
      var b := buttons.value;
      hidden[b.next.value := isOut][b.back.value := isOut][b.out.value := !isOut]
  }

  /** Setting the buttons twice for the same answer is setting them once. */
  lemma NavHiddenIdempotent(hidden: seq<bool>, isOut: bool, buttons: Option<StepButtons>)
    requires ButtonsPresent(buttons, |hidden|)
    ensures NavHidden(NavHidden(hidden, isOut, buttons), isOut, buttons) == NavHidden(hidden, isOut, buttons)
  {
  }

  class ProgressiveDisclosure {
    const page: Page
    const outConditions: seq<seq<string>> := OutConditions

    constructor (page: Page)
      ensures this.page == page
    {
      this.page := page;
    }

    /** `hideWithSubfields(e)`: hides `e`, clears the fields inside it, and
        recursively hides the target of every toggle inside it. */
    method HideWithSubfields(e: int)
      requires page.Valid() && 0 <= e < |page.els|
      modifies page
      ensures page.Valid()
      ensures page.Snapshot() == HideAll(page.els, old(page.Snapshot()), ReachSet(Edges(page.els), page.rank, e))
      decreases page.rank[e]
    {
      page.HideOne(e);
      var ts := Targets(page.els, e);
      assert {e} + ReachList(Edges(page.els), page.rank, ts[..0], page.rank[e]) == {e};
      var i := 0;
      while i < |ts|
        invariant 0 <= i <= |ts| && page.Valid()
        invariant page.Snapshot() == HideAll(page.els, old(page.Snapshot()), {e} + ReachList(Edges(page.els), page.rank, ts[..i], page.rank[e]))
      {
        assert ts[i] in ts;
        HideWithSubfields(ts[i]);
        HideStep(page.els, page.rank, old(page.Snapshot()), {e}, ts, page.rank[e], i);
        i := i + 1;
      }
      assert ts[..i] == ts;
      assert {e} + ReachList(Edges(page.els), page.rank, ts, page.rank[e]) == ReachSet(Edges(page.els), page.rank, e);
    }

    /** Hides each of `ts` with its subfields, in order. */
    method HideEach(ts: seq<int>)
      requires page.Valid() && forall k :: 0 <= k < |ts| ==> 0 <= ts[k] < |page.els|
      modifies page
      ensures page.Valid()
      ensures page.Snapshot() == HideAll(page.els, old(page.Snapshot()), ReachAll(Edges(page.els), page.rank, ts))
    {
      HideAllNothing(page.els, page.Snapshot());
      assert {} + ReachAll(Edges(page.els), page.rank, ts[..0]) == {};
      var i := 0;
      while i < |ts|
        invariant 0 <= i <= |ts| && page.Valid()
        invariant page.Snapshot() == HideAll(page.els, old(page.Snapshot()), {} + ReachAll(Edges(page.els), page.rank, ts[..i]))
      {
        assert ts[i] in ts;
        HideWithSubfields(ts[i]);
        HideStep(page.els, page.rank, old(page.Snapshot()), {}, ts, RankBound(page.rank), i);
        i := i + 1;
      }
      assert ts[..i] == ts;
      assert {} + ReachAll(Edges(page.els), page.rank, ts) == ReachAll(Edges(page.els), page.rank, ts);
    }

    /** `hideOtherTargets(x)`: for a named element, hides the targets of all
        the `input`s of its group; then, if the fieldset around `x` is
        hidden, hides every later sibling fieldset. An unnamed element
        changes nothing. */
    method HideOtherTargets(x: int)
      requires page.Valid() && 0 <= x < |page.els|
      modifies page
      ensures page.Valid()
      ensures page.Snapshot() == AfterHideOthers(page.els, page.rank, x, old(page.Snapshot()))
    {
      var name := page.els[x].name;
      if name == "" {
        HideAllNothing(page.els, page.Snapshot());
        return;
      }
      HideEach(GroupTargets(page.els, name));
      var f := ClosestFieldset(page.els, x);
      if f >= 0 && page.hidden[f] {
        HideEach(LaterFieldsets(page.els, f));
      }
    }

    /** `handleToggle` for a change of `x`: `hideOtherTargets(x)`, then, if
        `x` is checked, its own targets are revealed. */
    method HandleToggle(x: int)
      requires page.Valid() && 0 <= x < |page.els|
      modifies page
      ensures page.Valid()
      ensures page.Snapshot() == AfterToggle(page.els, page.rank, x, old(page.Snapshot()))
    {
      HideOtherTargets(x);
      ghost var s2 := page.Snapshot();
      var ts := Resolved(page.els, page.els[x].toggles);
      var i := 0;
      while i < |ts|
        invariant 0 <= i <= |ts| && page.Valid()
        invariant page.Snapshot() == if Ticked(page.els, s2.checked, x) then RevealAll(s2, ts[..i]) else s2
      {
        if Ticked(page.els, page.checked, x) {
          assert ts[i] in ts;
          page.Reveal(ts[i]);
          assert ts[..i + 1] == ts[..i] + [ts[i]];
        }
        i := i + 1;
      }
      assert ts[..i] == ts;
    }

    /** `outCheck()`: computes whether the checked answers make the
        applicant ineligible and sets the active step's buttons to match.
        `buttons` is what the document lookup of the active step finds. */
    method OutCheck(buttons: Option<StepButtons>) returns (isOut: bool)
      requires page.Valid() && ButtonsPresent(buttons, |page.els|)
      modifies page
      ensures page.Valid()
      ensures isOut == IsOut(outConditions, CheckedIds(page.els, page.checked))
      ensures page.Snapshot() == old(page.Snapshot()).(hidden := NavHidden(old(page.hidden), isOut, buttons))
    {
      isOut := IsOut(outConditions, CheckedIds(page.els, page.checked));
      UpdateNavigationButtons(isOut, buttons);
    }

    /** `updateNavigationButtons(isOut)`. */
    method UpdateNavigationButtons(isOut: bool, buttons: Option<StepButtons>)
      requires page.Valid() && ButtonsPresent(buttons, |page.els|)
      modifies page
      ensures page.Valid()
      ensures page.Snapshot() == old(page.Snapshot()).(hidden := NavHidden(old(page.hidden), isOut, buttons))
    {
      if buttons.None? || buttons.value.out.None? {
        return;
      }
      var b := buttons.value;
      page.SetHidden(b.next.value, isOut);
      page.SetHidden(b.back.value, isOut);
      page.SetHidden(b.out.value, !isOut);
    }

    /** `handleInputChange` for a change of `x`: `handleToggle`, then
        `outCheck`. */
    method HandleInputChange(x: int, buttons: Option<StepButtons>) returns (isOut: bool)
      requires page.Valid() && 0 <= x < |page.els| && ButtonsPresent(buttons, |page.els|)
      modifies page
      ensures page.Valid()
      ensures var s := AfterToggle(page.els, page.rank, x, old(page.Snapshot()));
        && isOut == IsOut(OutConditions, CheckedIds(page.els, s.checked))
        && page.Snapshot() == s.(hidden := NavHidden(s.hidden, isOut, buttons))
    {
      HandleToggle(x);
      isOut := OutCheck(buttons);
    }
  }

  /** The state after `hideOtherTargets(x)` (see the method). */
  ghost function AfterHideOthers(els: seq<Element>, rank: seq<nat>, x: int, s: State): (s': State)
    requires Structured(els) && WellRanked(els, rank) && Fits(els, s) && 0 <= x < |els|
    ensures Fits(els, s')
  {
    if els[x].name == "" then s
    else
      var s1 := HideAll(els, s, ReachAll(Edges(els), rank, GroupTargets(els, els[x].name)));
      var f := ClosestFieldset(els, x);
      if f >= 0 && s1.hidden[f] then HideAll(els, s1, ReachAll(Edges(els), rank, LaterFieldsets(els, f))) else s1
  }

  /** `s` with the `hidden` class removed from each of `ts`. */
  ghost function RevealAll(s: State, ts: seq<int>): (s': State)
    ensures s'.checked == s.checked && s'.values == s.values && |s'.hidden| == |s.hidden|
    ensures forall y :: 0 <= y < |s.hidden| ==> s'.hidden[y] == (s.hidden[y] && y !in ts)
  {
    s.(hidden := seq(|s.hidden|, y requires 0 <= y < |s.hidden| => s.hidden[y] && y !in ts))
  }

  /** The state after `handleToggle` for a change of `x` (see the method). */
  ghost function AfterToggle(els: seq<Element>, rank: seq<nat>, x: int, s: State): (s': State)
    requires Structured(els) && WellRanked(els, rank) && Fits(els, s) && 0 <= x < |els|
    ensures Fits(els, s')
  {
    var s2 := AfterHideOthers(els, rank, x, s);
    if Ticked(els, s2.checked, x) then RevealAll(s2, Resolved(els, els[x].toggles)) else s2
  }

  /** After `hideOtherTargets(x)` for a named `x`, every target of its
      group is hidden. */
  lemma HideOthersHidesGroup(els: seq<Element>, rank: seq<nat>, x: int, s: State, t: int)
    requires Structured(els) && WellRanked(els, rank) && Fits(els, s) && 0 <= x < |els|
    requires els[x].name != "" && t in GroupTargets(els, els[x].name)
    ensures AfterHideOthers(els, rank, x, s).hidden[t]
  {
    var gs := GroupTargets(els, els[x].name);
    var r := ReachAll(Edges(els), rank, gs);
    var k :| 0 <= k < |gs| && gs[k] == t;
    ReachAllHolds(Edges(els), rank, gs, k);
    var s1 := HideAll(els, s, r);
    HideAllEffect(els, s, r, t);
    var s2 := AfterHideOthers(els, rank, x, s);
    var f := ClosestFieldset(els, x);
    if f >= 0 && s1.hidden[f] {
      var r2 := ReachAll(Edges(els), rank, LaterFieldsets(els, f));
      assert s2 == HideAll(els, s1, r2);
      HideAllEffect(els, s1, r2, t);
    } else {
      assert s2 == s1;
    }
  }

  /** When hiding the group's targets leaves the fieldset around `x`
      hidden, every later sibling fieldset ends up hidden too. */
  lemma HideOthersHidesLaterFieldsets(els: seq<Element>, rank: seq<nat>, x: int, s: State, g: int)
    requires Structured(els) && WellRanked(els, rank) && Fits(els, s) && 0 <= x < |els|
    requires els[x].name != ""
    requires var f := ClosestFieldset(els, x);
      && f >= 0
      && HideAll(els, s, ReachAll(Edges(els), rank, GroupTargets(els, els[x].name))).hidden[f]
      && f < g < |els| && els[g].parent == els[f].parent && els[g].tag == FieldsetTag
    ensures AfterHideOthers(els, rank, x, s).hidden[g]
  {
    var f := ClosestFieldset(els, x);
    var s1 := HideAll(els, s, ReachAll(Edges(els), rank, GroupTargets(els, els[x].name)));
    var fs := LaterFieldsets(els, f);
    var r2 := ReachAll(Edges(els), rank, fs);
    var k :| 0 <= k < |fs| && fs[k] == g;
    ReachAllHolds(Edges(els), rank, fs, k);
    assert AfterHideOthers(els, rank, x, s) == HideAll(els, s1, r2);
    HideAllEffect(els, s1, r2, g);
  }

  /** Toggles in a group are exclusive: after a change of a named `x`, the
      target of any `input` of its group is hidden unless it is one of the
      targets `x` itself reveals, and those are shown exactly when `x` is
      checked. */
  lemma ToggleExclusive(els: seq<Element>, rank: seq<nat>, x: int, s: State, t: int)
    requires Structured(els) && WellRanked(els, rank) && Fits(els, s) && 0 <= x < |els|
    requires els[x].name != "" && t in GroupTargets(els, els[x].name)
    ensures var s' := AfterToggle(els, rank, x, s);
      var s2 := AfterHideOthers(els, rank, x, s);
      && (t !in Resolved(els, els[x].toggles) ==> s'.hidden[t])
      && (t in Resolved(els, els[x].toggles) ==> s'.hidden[t] == !Ticked(els, s2.checked, x))
  {
    HideOthersHidesGroup(els, rank, x, s, t);
  }

  /** An unnamed element hides nothing: its change only reveals its own
      targets, and only when it is checked. */
  lemma UnnamedOnlyReveals(els: seq<Element>, rank: seq<nat>, x: int, s: State)
    requires Structured(els) && WellRanked(els, rank) && Fits(els, s) && 0 <= x < |els|
    requires els[x].name == ""
    ensures AfterToggle(els, rank, x, s) ==
      if Ticked(els, s.checked, x) then RevealAll(s, Resolved(els, els[x].toggles)) else s
  {
  }
}
