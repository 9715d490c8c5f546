/** `Stepper`: the wizard's step navigator. The steps are the document's
    `.step` elements, identified here by their position 0..count-1. */
module Wizard {
  import opened Base
  import opened Objects
  import opened Json
  import opened Text
  import opened Storage

  /** The handler class `customStepCode` builds for a step. */
  datatype Controller =
    | Step1Controller
    | Step2Controller
    | Step3Controller
    | Step4Controller
    | Step5Controller
  {
    /** Only a `Step4Handler` owns a `documentsTable`. */
    predicate HasDocumentsTable() {
      this == Step4Controller
    }
  }

  /** The `switch` of `customStepCode`: steps 1 to 5 have a handler class,
      every other number none. */
  function ControllerFor(stepNum: int): (c: Option<Controller>)
    ensures c.Some? <==> 1 <= stepNum <= 5
    ensures stepNum == 5 ==> c == Some(Step5Controller)
  {
    if stepNum == 1 then Some(Step1Controller)
    else if stepNum == 2 then Some(Step2Controller)
    else if stepNum == 3 then Some(Step3Controller)
    else if stepNum == 4 then Some(Step4Controller)
    else if stepNum == 5 then Some(Step5Controller)
    else None
  }

  /** What a step's number badge shows. */
  datatype Badge = InfoMark | CheckMark | Number(n: int)

  /** The decisions of `styleStepNumber`: the dark background for the
      active and the completed steps, and the badge. */
  datatype StepNumberStyle = StepNumberStyle(highlighted: bool, badge: Badge)

  function StyleStepNumber(index: int, isActive: bool, isCompleted: bool): (s: StepNumberStyle)
    ensures s.highlighted <==> isActive || isCompleted
    ensures s.badge == CheckMark <==> isCompleted
    ensures s.badge == InfoMark <==> index == 0 && !isCompleted
    ensures s.badge.Number? <==> index != 0 && !isCompleted
    ensures s.badge.Number? ==> s.badge.n == index
  {
    var badge :=
      if index == 0 && !isCompleted then InfoMark
      else if isCompleted then CheckMark
      else Number(index);
    StepNumberStyle(isActive || isCompleted, badge)
  }

  /** The style `updateStepNumbers` gives every step that has a
      `.step-number` element, when the active step is `active` (-1: none). */
  function NumberStyles(hasNumber: seq<bool>, active: int): (m: map<int, StepNumberStyle>)
    ensures forall j :: j in m <==> 0 <= j < |hasNumber| && hasNumber[j]
    ensures forall j :: j in m ==> m[j] == StyleStepNumber(j, j == active, j < active)
  {
    map j | 0 <= j < |hasNumber| && hasNumber[j] :: StyleStepNumber(j, j == active, j < active)
  }

  /** Status of step `j` while step `active` is active: what its badge
      shows, derived from positions only. */
  datatype Status = Pending | Active | Completed

  function StatusOf(j: int, active: int): (st: Status)
    ensures st == Completed <==> j < active
    ensures st == Active <==> j == active
  {
    if j < active then Completed else if j == active then Active else Pending
  }

  /** A step's badge is highlighted exactly when the step is active or
      completed, shows a check mark exactly when it is completed, and the
      first step shows the info mark until it is completed. */
  lemma BadgeFollowsStatus(hasNumber: seq<bool>, active: int, j: int)
    requires 0 <= j < |hasNumber| && hasNumber[j]
    ensures var s := NumberStyles(hasNumber, active)[j];
      && (s.highlighted <==> StatusOf(j, active) != Pending)
      && (s.badge == CheckMark <==> StatusOf(j, active) == Completed)
      && (j == 0 ==> (s.badge == InfoMark <==> StatusOf(j, active) != Completed))
      && (j != 0 && StatusOf(j, active) != Completed ==> s.badge == Number(j))
  {
  }

  /** `steps.indexOf(steps.find(step => step has class 'active'))`: the
      first step marked active, or -1 when there is none (`indexOf(undefined)`). */
  function FirstMarked(marked: seq<bool>): (r: int)
    ensures -1 <= r < |marked|
    ensures r == -1 <==> forall j :: 0 <= j < |marked| ==> !marked[j]
    ensures r >= 0 ==> marked[r] && forall j :: 0 <= j < r ==> !marked[j]
  {
    if marked == [] then -1
    else if marked[0] then 0
    else
      var r := FirstMarked(marked[1..]);
      if r < 0 then -1 else r + 1
  }

  /** The session-store key of a step's saved answers, `stepData_<n>`. */
  function StepKey(n: int): (r: string)
    ensures |r| > 9 && r[..9] == "stepData_"
    ensures ParseInt(r[9..]) == Some(n)
  {
    var r := "stepData_" + IntToString(n);
    assert r[9..] == IntToString(n) + "";
    ParseIntOfIntToString(n, "");
    r
  }

  /** Different steps save under different keys. */
  lemma StepKeyInjective(m: int, n: int)
    requires StepKey(m) == StepKey(n)
    ensures m == n
  {
    var prefix := "stepData_";
    assert StepKey(m)[|prefix|..] == IntToString(m);
    assert StepKey(n)[|prefix|..] == IntToString(n);
    IntToStringPrefixInjective(m, n, [], []);
  }

  /** A form control as `storeData` sees it. Select and textarea elements
      are `OtherControl`s: only radio buttons and checkboxes are special. */
  datatype ControlType = Radio | Checkbox | OtherControl

  datatype FormControl = FormControl(ty: ControlType, name: string, value: string, checked: bool)

  /** A radio button or checkbox counts only when checked; every other
      control always counts. */
  predicate Contributes(c: FormControl) {
    (c.ty != Radio && c.ty != Checkbox) || c.checked
  }

  /** The record `storeData` builds from a form's controls, in document
      order: each contributing control assigns `dataObj[name] = value`. */
  function SerializeForm(cs: seq<FormControl>): (r: Props<Json>)
    ensures UniqueKeys(r)
  {
    if cs == [] then []
    else
      var prev := SerializeForm(cs[..|cs| - 1]);
      var c := cs[|cs| - 1];
      if Contributes(c) then Put(prev, c.name, JStr(c.value)) else prev
  }

  /** The collection loop of `storeData`. */
  method CollectFormData(cs: seq<FormControl>) returns (data: Props<Json>)
    ensures data == SerializeForm(cs)
  {
    data := [];
    var i := 0;
    while i < |cs|
      invariant 0 <= i <= |cs|
      invariant data == SerializeForm(cs[..i])
    {
      var c := cs[i];
      assert cs[..i + 1][..i] == cs[..i];
      if c.ty == Radio || c.ty == Checkbox {
        if c.checked {
          data := Put(data, c.name, JStr(c.value));
        }
      } else {
        data := Put(data, c.name, JStr(c.value));
      }
      i := i + 1;
    }
    assert cs[..i] == cs;
  }

  /** Position `i` holds the last contributing control named `k`. */
  predicate LastContributor(cs: seq<FormControl>, k: string, i: int) {
    && 0 <= i < |cs| && cs[i].name == k && Contributes(cs[i])
    && forall j :: i < j < |cs| ==> !(cs[j].name == k && Contributes(cs[j]))
  }

  /** The saved record holds, under each name, the value of the last
      contributing control with that name: later controls overwrite
      earlier ones, and unchecked radio buttons and checkboxes are skipped. */
  lemma {:induction false} SerializedValue(cs: seq<FormControl>, k: string, i: int)
    requires LastContributor(cs, k, i)
    ensures Get(SerializeForm(cs), k) == Some(JStr(cs[i].value))
  {
    var last := |cs| - 1;
    var init := cs[..last];
    if Contributes(cs[last]) {
      GetPut(SerializeForm(init), cs[last].name, JStr(cs[last].value), k);
    }
    if i < last {
      assert LastContributor(init, k, i);
      SerializedValue(init, k, i);
    }
  }

  /** A name no contributing control carries is absent from the record. */
  lemma {:induction false} SerializedAbsent(cs: seq<FormControl>, k: string)
    requires forall j :: 0 <= j < |cs| ==> !(cs[j].name == k && Contributes(cs[j]))
    ensures Get(SerializeForm(cs), k) == None
  {
    if cs != [] {
      var init := cs[..|cs| - 1];
      assert forall j :: 0 <= j < |init| ==> init[j] == cs[j];
      SerializedAbsent(init, k);
    }
  }

  class Stepper {
    /** The number of `.step` elements. */
    const count: nat
    /** Which steps have a `.step-number` element. */
    const hasNumber: seq<bool>
    /** The session store. */
    const store: DataManager

    /** Which steps carry the `active` class. */
    var marked: seq<bool>
    /** `steps.indexOf(activeStep)`: -1 while no step is active. */
    var active: int
    /** `stepHandlers`: the controller built for each step. */
    var handlers: map<int, Controller>
    /** The step numbers whose controller was built, in the order built. */
    var built: seq<int>
    /** The style last applied to each step-number badge. */
    var numberStyles: map<int, StepNumberStyle>

    ghost predicate Structured()
      reads this
    {
      && |marked| == count && |hasNumber| == count
      && -1 <= active < count
      && forall j :: j in numberStyles ==> 0 <= j < count && hasNumber[j]
    }

    ghost predicate Valid()
      reads this
    {
      && Structured()
      && numberStyles == NumberStyles(hasNumber, active)
      && (forall k :: k in handlers ==> ControllerFor(k) == Some(handlers[k]))
      && (forall k :: k in handlers <==> k in built)
      && (forall a, b :: 0 <= a < b < |built| ==> built[a] != built[b])
    }

    /** At most the active step carries the `active` class. */
    ghost predicate SingleMarked()
      reads this
    {
      |marked| == count && forall j :: 0 <= j < count ==> (marked[j] <==> j == active)
    }

    /** `new Stepper('.step')`: the first step marked active becomes the
        active one, the badges are styled and its controller is built. */
    constructor (initiallyMarked: seq<bool>, hasNumber: seq<bool>, store: DataManager)
      requires |initiallyMarked| == |hasNumber|
      ensures Valid()
      ensures count == |initiallyMarked| && this.hasNumber == hasNumber && this.store == store
      ensures marked == initiallyMarked
      ensures active == FirstMarked(initiallyMarked)
      ensures handlers == (if ControllerFor(active).Some? then map[active := ControllerFor(active).value] else map[])
    {
      count := |initiallyMarked|;
      this.hasNumber := hasNumber;
      this.store := store;
      marked := initiallyMarked;
      active := FirstMarked(initiallyMarked);
      handlers := map[];
      built := [];
      numberStyles := map[];
      new;
      UpdateStepNumbers();
      CustomStepCode(active);
    }

    /** `updateStepNumbers`: restyles the badge of every numbered step. */
    method UpdateStepNumbers()
      requires Structured()
      modifies this`numberStyles
      ensures Structured()
      ensures numberStyles == NumberStyles(hasNumber, active)
    {
      var i := 0;
      while i < count
        invariant 0 <= i <= count
        invariant forall j :: j in numberStyles ==> 0 <= j < count && hasNumber[j]
        invariant forall j :: 0 <= j < i && hasNumber[j] ==> j in numberStyles
        invariant forall j :: 0 <= j < i && hasNumber[j] ==>
          numberStyles[j] == StyleStepNumber(j, j == active, j < active)
      {
        if hasNumber[i] {
          numberStyles := numberStyles[i := StyleStepNumber(i, i == active, i < active)];
        }
        i := i + 1;
      }
    }

    /** `customStepCode(stepNum)`: builds the step's controller unless one is
        cached; only steps 1 to 5 have one. */
    method CustomStepCode(stepNum: int)
      requires Structured()
      requires forall k :: k in handlers ==> ControllerFor(k) == Some(handlers[k])
      requires forall k :: k in handlers <==> k in built
      requires forall a, b :: 0 <= a < b < |built| ==> built[a] != built[b]
      modifies this`handlers, this`built
      ensures Structured()
      ensures forall k :: k in handlers ==> ControllerFor(k) == Some(handlers[k])
      ensures forall k :: k in handlers <==> k in built
      ensures forall a, b :: 0 <= a < b < |built| ==> built[a] != built[b]
      ensures handlers ==
        if stepNum in old(handlers) || ControllerFor(stepNum).None? then old(handlers)
        else old(handlers)[stepNum := ControllerFor(stepNum).value]
      ensures built ==
        if stepNum in old(handlers) || ControllerFor(stepNum).None? then old(built)
        else old(built) + [stepNum]
    {
      if stepNum !in handlers {
        match ControllerFor(stepNum)
        case Some(c) =>
          handlers := handlers[stepNum := c];
          built := built + [stepNum];
        case None =>
      }
    }

    /** `setActive(steps[target])`: a target that is not a step (undefined)
        changes nothing; otherwise the old active step loses the `active`
        class, the target gains it and becomes the active step, the badges
        are restyled and the target's controller is built if need be. */
    method SetActive(target: int)
      requires Valid()
      modifies this`marked, this`active, this`numberStyles, this`handlers, this`built
      ensures Valid()
      ensures !(0 <= target < count) ==>
        marked == old(marked) && active == old(active) && handlers == old(handlers) && built == old(built)
      ensures 0 <= target < count ==> active == target
      ensures 0 <= target < count ==> forall j :: 0 <= j < count ==>
        marked[j] == (j == target || (j != old(active) && old(marked)[j]))
      ensures 0 <= target < count && old(SingleMarked()) ==> SingleMarked()
      ensures 0 <= target < count ==>
        handlers == (if target in old(handlers) || ControllerFor(target).None? then old(handlers)
                     else old(handlers)[target := ControllerFor(target).value])
    {
      if !(0 <= target < count) {
        return;
      }
      if active >= 0 {
        marked := marked[active := false];
      }
      marked := marked[target := true];
      active := target;
      UpdateStepNumbers();
      CustomStepCode(active);
    }

    /** `storeData(stepNum)`: saves the record of the step's form (an empty
        one when the document has no `#step-<n>-form`) under `stepData_<n>`.
        `forms` maps a step number to its form's controls in document order. */
    method StoreData(stepNum: int, forms: map<int, seq<FormControl>>)
      requires Valid()
      modifies store
      ensures store.items == old(store.items)[StepKey(stepNum) :=
        JObj(if stepNum in forms then SerializeForm(forms[stepNum]) else [])]
      ensures store.notices == old(store.notices) + [StepKey(stepNum)]
    {
      var data: Props<Json> := [];
      if stepNum in forms {
        data := CollectFormData(forms[stepNum]);
      }
      // The source also embeds `stepHandlers[5].documentsTable.rows` for
      // step 5, but the controller cached for step 5 is always a
      // Step5Handler, which has no documents table.
      assert !(stepNum == 5 && 5 in handlers && handlers[5].HasDocumentsTable());
      store.SaveData(StepKey(stepNum), JObj(data));
    }

    /** `navigateStep(direction)`: 'next' moves forward, any other direction
        back. A target outside the steps changes nothing; otherwise the
        current step's answers are saved first and the target becomes
        active, with every earlier step completed. */
    method NavigateStep(direction: string, forms: map<int, seq<FormControl>>)
      requires Valid()
      modifies this`marked, this`active, this`numberStyles, this`handlers, this`built, store
      ensures Valid()
      ensures var t := if direction == "next" then old(active) + 1 else old(active) - 1;
        if 0 <= t < count then
          && active == t
          && (forall j :: 0 <= j < count && hasNumber[j] ==>
                numberStyles[j] == StyleStepNumber(j, StatusOf(j, t) == Active, StatusOf(j, t) == Completed))
          && (forall j :: 0 <= j < count ==>
                marked[j] == (j == t || (j != old(active) && old(marked)[j])))
          && (old(SingleMarked()) ==> SingleMarked())
          && store.items == old(store.items)[StepKey(old(active)) :=
               JObj(if old(active) in forms then SerializeForm(forms[old(active)]) else [])]
          && store.notices == old(store.notices) + [StepKey(old(active))]
          && handlers ==
               if t in old(handlers) || ControllerFor(t).None? then old(handlers)
               else old(handlers)[t := ControllerFor(t).value]
        else
          && active == old(active) && marked == old(marked) && handlers == old(handlers)
          && built == old(built)
          && store.items == old(store.items) && store.notices == old(store.notices)
    {
      var current := active;
      var target := if direction == "next" then current + 1 else current - 1;
      if 0 <= target < count {
        StoreData(current, forms);
        SetActive(target);
      }
    }
  }
}
