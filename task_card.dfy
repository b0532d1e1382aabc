/**
  The decisions the task card makes from its props: the badge class for the
  status, whether the Break Down menu item appears, whether it is enabled and
  what it says, and whether the sub-task list is shown and with what header.
 */
module TaskCard {
  import opened Wrappers
  import opened Tasks

  /**
    The props the card's decisions depend on. `hasBreakdown` says whether an
    `onBreakdown` handler was supplied; an absent `isBreakingDown` is false.
   */
  datatype CardProps = CardProps(
    status: Status,
    subTasks: Option<seq<string>>,
    hasBreakdown: bool,
    isBreakingDown: bool)

  // ---------------------------------------------------------- status badge

  /** The status text the badge shows, and the key into `StatusClasses`. */
  function StatusName(s: Status): string
  {
    match s
    case Todo => "todo"
    case InProgress => "in-progress"
    case Done => "done"
  }

  /** The `statusClasses` table, keyed by status name. */
  const StatusClasses: map<string, string> := map[
    "todo" := "bg-yellow-100 text-yellow-800",
    "in-progress" := "bg-blue-100 text-blue-800",
    "done" := "bg-green-100 text-green-800"]

  /** The badge's colour classes, `statusClasses[status]`: defined for every status. */
  function BadgeClass(s: Status): (c: string)
    ensures c in StatusClasses.Values
  {
    StatusClasses[StatusName(s)]
  }

  /** The table has an entry for the name of each status and for nothing else. */
  lemma StatusClassesCoverExactlyStatuses(name: string)
    ensures name in StatusClasses <==> exists s: Status :: StatusName(s) == name
  {
    if name in StatusClasses {
      if name == "todo" {
        assert StatusName(Todo) == name;
      } else if name == "in-progress" {
        assert StatusName(InProgress) == name;
      } else {
        assert StatusName(Done) == name;
      }
    }
  }

  /** Different statuses get different badge classes. */
  lemma BadgeClassInjective(s1: Status, s2: Status)
    ensures BadgeClass(s1) == BadgeClass(s2) ==> s1 == s2
  {
  }

  // ------------------------------------------------------- break-down item

  /** `subTasks?.length`: undefined when the list is absent. */
  function OptionalLength(subTasks: Option<seq<string>>): Option<nat>
  {
    match subTasks
    case None => None
    case Some(s) => Some(|s|)
  }

  /** JavaScript truthiness of a `number | undefined`. */
  predicate Truthy(n: Option<nat>)
  {
    n.Some? && n.value != 0
  }

  /** The card has sub-tasks: the list is present and non-empty. */
  predicate HasSubTasks(subTasks: Option<seq<string>>)
  {
    subTasks.Some? && subTasks.value != []
  }

  /** `canBreakDown`: a handler, a status other than done, and no sub-tasks yet. */
  function CanBreakDown(p: CardProps): (b: bool)
    ensures b <==> p.hasBreakdown && p.status != Done && !HasSubTasks(p.subTasks)
  {
    p.hasBreakdown && p.status != Done && !Truthy(OptionalLength(p.subTasks))
  }

  /** The item's `disabled` attribute, `!canBreakDown || isBreakingDown`. */
  function BreakDownDisabled(p: CardProps): (d: bool)
    ensures !d <==> p.hasBreakdown && p.status != Done && !HasSubTasks(p.subTasks) && !p.isBreakingDown
    ensures p.status == Done ==> d
    ensures HasSubTasks(p.subTasks) ==> d
  {
    !CanBreakDown(p) || p.isBreakingDown
  }

  /** The item's label, chosen by the nested conditional in priority order. */
  function BreakDownLabel(p: CardProps): (l: string)
    ensures p.isBreakingDown ==> l == "Generating..."
    ensures !p.isBreakingDown && p.status == Done ==> l == "Break Down (Disabled)"
    ensures !p.isBreakingDown && p.status != Done && HasSubTasks(p.subTasks) ==> l == "Break Down (Done)"
    ensures !p.isBreakingDown && p.status != Done && !HasSubTasks(p.subTasks) ==> l == "Break Down"
  {
    if p.isBreakingDown then "Generating..."
    else if p.status == Done then "Break Down (Disabled)"
    else if Truthy(OptionalLength(p.subTasks)) then "Break Down (Done)"
    else "Break Down"
  }

  /** The entries of the card's dropdown menu. */
  datatype MenuItem = Edit | Delete | BreakDown(text: string, disabled: bool)

  /** The dropdown: Edit, Delete, and Break Down only when a handler is supplied. */
  function Menu(p: CardProps): (items: seq<MenuItem>)
    ensures |items| == (if p.hasBreakdown then 3 else 2)
    ensures items[0] == Edit && items[1] == Delete
    ensures forall i :: 0 <= i < |items| && items[i].BreakDown? ==>
      items[i].text == BreakDownLabel(p) && items[i].disabled == BreakDownDisabled(p)
  {
    [Edit, Delete] + if p.hasBreakdown then [BreakDown(BreakDownLabel(p), BreakDownDisabled(p))] else []
  }

  /** The Break Down item appears exactly when an `onBreakdown` handler is supplied. */
  lemma BreakDownShownIffHandler(p: CardProps)
    ensures (exists i :: 0 <= i < |Menu(p)| && Menu(p)[i].BreakDown?) <==> p.hasBreakdown
  {
    if p.hasBreakdown {
      assert Menu(p)[2].BreakDown?;
    }
  }

  /** A shown item is enabled exactly when its label is the plain "Break Down". */
  lemma EnabledIffPlainLabel(p: CardProps)
    requires p.hasBreakdown
    ensures !BreakDownDisabled(p) <==> BreakDownLabel(p) == "Break Down"
  {
  }

  /** A done card never offers an enabled break-down, whatever its other props. */
  lemma DoneCardNeverBreaksDown(p: CardProps)
    requires p.status == Done
    ensures BreakDownDisabled(p)
    ensures BreakDownLabel(p) == (if p.isBreakingDown then "Generating..." else "Break Down (Disabled)")
  {
  }

  // ---------------------------------------------------------- card content

  /** The decimal digits JSX renders for a count. */
  function Decimal(n: nat): (s: string)
    ensures |s| > 0
    ensures forall i :: 0 <= i < |s| ==> '0' <= s[i] <= '9'
    ensures s[0] == '0' <==> n == 0
    decreases n
  {
    if n < 10 then [(48 + n) as char]
    else Decimal(n / 10) + [(48 + n % 10) as char]
  }

  /** The number a string of decimal digits denotes. */
  function DecimalValue(s: string): nat
    requires forall i :: 0 <= i < |s| ==> '0' <= s[i] <= '9'
  {
    if s == [] then 0
    else DecimalValue(s[..|s| - 1]) * 10 + (s[|s| - 1] as int - 48)
  }

  /** The digits of a count read back as that count. */
  lemma {:induction false} DecimalRoundTrip(n: nat)
    ensures DecimalValue(Decimal(n)) == n
    decreases n
  {
    if n >= 10 {
      DecimalRoundTrip(n / 10);
      var s := Decimal(n);
      assert s[..|s| - 1] == Decimal(n / 10);
    }
  }

  /** The header over the sub-task list: the count, then "Subtask", plural past one. */
  function SubtaskHeader(n: nat): string
  {
    Decimal(n) + " Subtask" + (if n > 1 then "s" else "")
  }

  /** The header starts with the count and ends in "s" exactly when the count exceeds one. */
  lemma SubtaskHeaderReadsBack(n: nat)
    ensures var h, k := SubtaskHeader(n), |Decimal(n)|;
      k < |h| && h[..k] == Decimal(n) && DecimalValue(h[..k]) == n &&
      h[k..] == (if n > 1 then " Subtasks" else " Subtask") &&
      (h[|h| - 1] == 's' <==> n > 1)
  {
    DecimalRoundTrip(n);
    var h, k := SubtaskHeader(n), |Decimal(n)|;
    assert h[..k] == Decimal(n);
  }

  /** The rendered sub-task section: its header and its items in order. */
  datatype SubtaskList = SubtaskList(header: string, items: seq<string>)

  /** The sub-task section, present only when not breaking down and sub-tasks exist. */
  function SubtaskSection(p: CardProps): (s: Option<SubtaskList>)
    ensures s.Some? <==> !p.isBreakingDown && HasSubTasks(p.subTasks)
    ensures s.Some? ==> s.value.items == p.subTasks.value && s.value.header == SubtaskHeader(|s.value.items|)
  {
    if !p.isBreakingDown && p.subTasks.Some? && |p.subTasks.value| > 0
    then Some(SubtaskList(SubtaskHeader(|p.subTasks.value|), p.subTasks.value))
    else None
  }

  /** The "Breaking down task using AI..." indicator is shown. */
  predicate BreakingDownIndicator(p: CardProps)
  {
    p.isBreakingDown
  }

  /** The indicator and the sub-task list are never shown together, and one of them tells the user why break-down is off. */
  lemma IndicatorExcludesSubtasks(p: CardProps)
    ensures !(BreakingDownIndicator(p) && SubtaskSection(p).Some?)
    ensures BreakingDownIndicator(p) || SubtaskSection(p).Some? ==> BreakDownDisabled(p)
  {
  }

  /** While sub-tasks are listed on a card that is not done, its item reads "Break Down (Done)". */
  lemma ListedSubtasksLabel(p: CardProps)
    requires SubtaskSection(p).Some? && p.status != Done
    ensures BreakDownLabel(p) == "Break Down (Done)"
  {
  }

}
