/**
  The list transforms that the collection hook hands to its state setter:
  replace-by-identifier (`prev.map(...)`) and remove-by-identifier
  (`prev.filter(...)`), with the properties the hook relies on.
 */
module TaskList {
  import opened Tasks

  /** `prev.map((task) => (task._id === id ? updated : task))`. */
  function ReplaceById(tasks: seq<Task>, id: string, updated: Task): (r: seq<Task>)
    ensures |r| == |tasks|
    ensures forall i :: 0 <= i < |tasks| ==>
      r[i] == (if tasks[i].id == id then updated else tasks[i])
  {
    if tasks == [] then []
    else [if tasks[0].id == id then updated else tasks[0]] + ReplaceById(tasks[1..], id, updated)
  }

  /** `prev.filter((task) => task._id !== id)`. */
  function RemoveById(tasks: seq<Task>, id: string): (r: seq<Task>)
    ensures |r| <= |tasks|
    ensures forall t :: t in r ==> t in tasks && t.id != id
    ensures forall t :: t in tasks && t.id != id ==> t in r
  {
    if tasks == [] then []
    else if tasks[0].id == id then RemoveById(tasks[1..], id)
    else [tasks[0]] + RemoveById(tasks[1..], id)
  }

  /** No entry of `tasks` carries the identifier `id`. */
  predicate Absent(tasks: seq<Task>, id: string)
  {
    forall i :: 0 <= i < |tasks| ==> tasks[i].id != id
  }

  /** At most one entry per identifier. */
  ghost predicate UniqueIds(tasks: seq<Task>)
  {
    forall i, j :: 0 <= i < j < |tasks| ==> tasks[i].id != tasks[j].id
  }

  /** `a` is `b` with some entries dropped and the rest kept in order. */
  ghost predicate IsSubsequence(a: seq<Task>, b: seq<Task>)
    decreases |b|
  {
    if a == [] then true
    else if b == [] then false
    else if a[0] == b[0] then IsSubsequence(a[1..], b[1..])
    else IsSubsequence(a, b[1..])
  }

  // ---------------------------------------------------------------- edit

  /** An edit for an identifier that is not in the list changes nothing. */
  lemma ReplaceAbsentIsIdentity(tasks: seq<Task>, id: string, updated: Task)
    requires Absent(tasks, id)
    ensures ReplaceById(tasks, id, updated) == tasks
  {
  }

  /**
    With unique identifiers, the edited record lands at the position the
    identifier had and every other position keeps its record.
   */
  lemma ReplaceAtPosition(tasks: seq<Task>, id: string, updated: Task, k: nat)
    requires UniqueIds(tasks) && k < |tasks| && tasks[k].id == id
    ensures |ReplaceById(tasks, id, updated)| == |tasks|
    ensures ReplaceById(tasks, id, updated)[k] == updated
    ensures forall i :: 0 <= i < |tasks| && i != k ==> ReplaceById(tasks, id, updated)[i] == tasks[i]
  {
  }

  /** Applying the same edit twice is the same as applying it once. */
  lemma ReplaceIdempotent(tasks: seq<Task>, id: string, updated: Task)
    ensures ReplaceById(ReplaceById(tasks, id, updated), id, updated) == ReplaceById(tasks, id, updated)
  {
  }

  /** An edit whose returned record keeps the identifier keeps identifiers unique. */
  lemma ReplaceKeepsUnique(tasks: seq<Task>, id: string, updated: Task)
    requires UniqueIds(tasks) && updated.id == id
    ensures UniqueIds(ReplaceById(tasks, id, updated))
  {
  }

  // -------------------------------------------------------------- remove

  /** Removing an identifier that is not in the list changes nothing. */
  lemma {:induction false} RemoveAbsentIsIdentity(tasks: seq<Task>, id: string)
    requires Absent(tasks, id)
    ensures RemoveById(tasks, id) == tasks
  {
    if tasks != [] {
      RemoveAbsentIsIdentity(tasks[1..], id);
      assert [tasks[0]] + tasks[1..] == tasks;
    }
  }

  /** After a removal no entry carries the identifier. */
  lemma RemoveLeavesAbsent(tasks: seq<Task>, id: string)
    ensures Absent(RemoveById(tasks, id), id)
  {
  }

  /** A second removal of the same identifier is a no-op. */
  lemma RemoveIdempotent(tasks: seq<Task>, id: string)
    ensures RemoveById(RemoveById(tasks, id), id) == RemoveById(tasks, id)
  {
    RemoveLeavesAbsent(tasks, id);
    RemoveAbsentIsIdentity(RemoveById(tasks, id), id);
  }

  /** The remaining entries keep their relative order. */
  lemma {:induction false} RemoveIsSubsequence(tasks: seq<Task>, id: string)
    ensures IsSubsequence(RemoveById(tasks, id), tasks)
  {
    if tasks != [] {
      var rest := RemoveById(tasks[1..], id);
      RemoveIsSubsequence(tasks[1..], id);
      if tasks[0].id == id {
        if rest != [] {
          assert rest[0] in rest;
          assert rest[0] != tasks[0];
        }
      } else {
        assert ([tasks[0]] + rest)[1..] == rest;
      }
    }
  }

  /**
    The removal keeps exactly the entries whose identifier differs, each as
    many times as it occurred, and drops every entry that matches.
   */
  lemma {:induction false} RemoveCounts(tasks: seq<Task>, id: string)
    ensures forall t :: multiset(RemoveById(tasks, id))[t] == (if t.id == id then 0 else multiset(tasks)[t])
  {
    if tasks != [] {
      RemoveCounts(tasks[1..], id);
      assert tasks == [tasks[0]] + tasks[1..];
      assert multiset(tasks) == multiset{tasks[0]} + multiset(tasks[1..]);
    }
  }

  /** An order-preserving sub-list of a list with unique identifiers has unique identifiers. */
  lemma {:induction false} SubsequenceKeepsUnique(a: seq<Task>, b: seq<Task>)
    requires IsSubsequence(a, b) && UniqueIds(b)
    ensures UniqueIds(a)
    ensures forall t :: t in a ==> t in b
    decreases |b|
  {
    if a != [] && b != [] {
      assert UniqueIds(b[1..]) by {
        forall i, j | 0 <= i < j < |b[1..]| ensures b[1..][i].id != b[1..][j].id {
          assert b[1..][i] == b[i + 1] && b[1..][j] == b[j + 1];
        }
      }
      if a[0] == b[0] {
        SubsequenceKeepsUnique(a[1..], b[1..]);
        forall j | 0 < j < |a| ensures a[0].id != a[j].id {
          assert a[j] == a[1..][j - 1];
          assert a[j] in a[1..];
          var k :| 0 <= k < |b[1..]| && b[1..][k] == a[j];
          assert b[k + 1] == a[j];
        }
        forall i, j | 0 <= i < j < |a| ensures a[i].id != a[j].id {
          if i > 0 {
            assert a[i] == a[1..][i - 1] && a[j] == a[1..][j - 1];
          }
        }
        forall t | t in a ensures t in b {
          if t != a[0] {
            assert t in a[1..];
          }
        }
      } else {
        SubsequenceKeepsUnique(a, b[1..]);
      }
    }
  }

  /** Removal keeps identifiers unique. */
  lemma RemoveKeepsUnique(tasks: seq<Task>, id: string)
    requires UniqueIds(tasks)
    ensures UniqueIds(RemoveById(tasks, id))
  {
    RemoveIsSubsequence(tasks, id);
    SubsequenceKeepsUnique(RemoveById(tasks, id), tasks);
  }

  // -------------------------------------------------------------- append

  /** Appending a record whose identifier is new keeps identifiers unique. */
  lemma AppendKeepsUnique(tasks: seq<Task>, added: Task)
    requires UniqueIds(tasks) && Absent(tasks, added.id)
    ensures UniqueIds(tasks + [added])
  {
  }

}
