/**
 * The task list of the to-do application as a value: the record of one item, the
 * array operations the application applies to its list (filter, findIndex,
 * in-place edit of one element) and the views derived from the list (the
 * filtered list and the three counters).
 */
module TaskList {
  import opened JsString

  datatype Option<T> = None | Some(value: T)

  /** One to-do item. The id is the creation time in milliseconds; createdAt is an ISO timestamp. */
  datatype Task = Task(id: int, text: string, date: string, completed: bool, createdAt: string)

  /** The counters shown under the list. */
  datatype Counts = Counts(total: nat, active: nat, completed: nat)

  predicate IsActive(t: Task) { !t.completed }

  predicate IsCompleted(t: Task) { t.completed }

  /** The test deleteTask filters with: its id differs from the one deleted. */
  function OtherId(id: int): Task -> bool
  {
    (t: Task) => t.id != id
  }

  /** a is obtained from b by deleting elements, keeping the order of the rest. */
  ghost predicate SubsequenceOf<T>(a: seq<T>, b: seq<T>)
    decreases |b|
  {
    if a == [] then true
    else if b == [] then false
    else (a[0] == b[0] && SubsequenceOf(a[1..], b[1..])) || SubsequenceOf(a, b[1..])
  }

  // ---------------------------------------------------------------------------
  // Array.prototype.filter

  /** The elements of s that satisfy p, in their order in s. */
  function Keep(s: seq<Task>, p: Task -> bool): (r: seq<Task>)
    ensures |r| <= |s|
    ensures forall x :: x in r <==> x in s && p(x)
  {
    if s == [] then []
    else if p(s[0]) then [s[0]] + Keep(s[1..], p)
    else Keep(s[1..], p)
  }

  /** Keep preserves the relative order of what it keeps. */
  lemma {:induction false} KeepIsSubsequence(s: seq<Task>, p: Task -> bool)
    ensures SubsequenceOf(Keep(s, p), s)
  {
    if s != [] {
      KeepIsSubsequence(s[1..], p);
      var r := Keep(s, p);
      if p(s[0]) {
        assert r[0] == s[0] && r[1..] == Keep(s[1..], p);
      }
    }
  }

  /** Keep drops nothing that satisfies p: every element keeps its multiplicity. */
  lemma {:induction false} KeepMultiplicity(s: seq<Task>, p: Task -> bool)
    ensures forall x :: multiset(Keep(s, p))[x] == if p(x) then multiset(s)[x] else 0
  {
    if s != [] {
      KeepMultiplicity(s[1..], p);
      assert s == [s[0]] + s[1..];
      assert multiset(s) == multiset{s[0]} + multiset(s[1..]);
    }
  }

  /** Keep never puts two tasks with one id into its result when its input has none. */
  lemma {:induction false} KeepKeepsUnique(s: seq<Task>, p: Task -> bool)
    requires UniqueIds(s)
    ensures UniqueIds(Keep(s, p))
  {
    if s != [] {
      var tail := s[1..];
      KeepKeepsUnique(tail, p);
      var k := Keep(tail, p);
      if p(s[0]) {
        forall j | 0 <= j < |k| ensures k[j].id != s[0].id {
          assert k[j] in tail;
          var m :| 0 <= m < |tail| && tail[m] == k[j];
          assert s[m + 1] == k[j];
        }
        assert Keep(s, p) == [s[0]] + k;
      }
    }
  }

  /** When every element satisfies p, Keep returns its input unchanged. */
  lemma {:induction false} KeepAll(s: seq<Task>, p: Task -> bool)
    requires forall k :: 0 <= k < |s| ==> p(s[k])
    ensures Keep(s, p) == s
  {
    if s != [] {
      KeepAll(s[1..], p);
      assert [s[0]] + s[1..] == s;
    }
  }

  /** Filtering by complementary predicates splits the list: the two lengths add up. */
  lemma {:induction false} KeepPartition(s: seq<Task>, p: Task -> bool, q: Task -> bool)
    requires forall x :: q(x) == !p(x)
    ensures |Keep(s, p)| + |Keep(s, q)| == |s|
  {
    if s != [] {
      KeepPartition(s[1..], p, q);
    }
  }

  /** Replacing one element changes the length of a filter by at most the two memberships. */
  lemma {:induction false} KeepReplace(s: seq<Task>, i: nat, x: Task, p: Task -> bool)
    requires i < |s|
    ensures |Keep(s[i := x], p)| + (if p(s[i]) then 1 else 0)
         == |Keep(s, p)| + (if p(x) then 1 else 0)
  {
    if i == 0 {
      assert s[i := x][1..] == s[1..];
    } else {
      KeepReplace(s[1..], i - 1, x, p);
      assert s[i := x][1..] == s[1..][i - 1 := x];
    }
  }

  /** A filter that rejects exactly one element removes that element and nothing else. */
  lemma {:induction false} KeepDropsOne(s: seq<Task>, p: Task -> bool, i: nat)
    requires i < |s| && !p(s[i])
    requires forall k :: 0 <= k < |s| && k != i ==> p(s[k])
    ensures Keep(s, p) == s[..i] + s[i + 1..]
  {
    var tail := s[1..];
    if i == 0 {
      KeepAll(tail, p);
    } else {
      KeepDropsOne(tail, p, i - 1);
      assert s[..i] == [s[0]] + tail[..i - 1];
      assert s[i + 1..] == tail[i..];
    }
  }

  // ---------------------------------------------------------------------------
  // Array.prototype.findIndex / find on the id

  /** The index of the first task with the given id, or -1 when there is none. */
  function FindIndex(ts: seq<Task>, id: int): (r: int)
    ensures -1 <= r < |ts|
    ensures r == -1 ==> forall j :: 0 <= j < |ts| ==> ts[j].id != id
    ensures r != -1 ==> ts[r].id == id && forall j :: 0 <= j < r ==> ts[j].id != id
  {
    if ts == [] then -1
    else if ts[0].id == id then 0
    else
      var k := FindIndex(ts[1..], id);
      if k == -1 then -1 else k + 1
  }

  /** Two lists whose ids agree position by position have the same first match. */
  lemma FindIndexById(ts: seq<Task>, us: seq<Task>, id: int)
    requires |ts| == |us|
    requires forall j :: 0 <= j < |ts| ==> ts[j].id == us[j].id
    ensures FindIndex(ts, id) == FindIndex(us, id)
  {
  }

  // ---------------------------------------------------------------------------
  // The list operations of the application

  /** toggleTask: the first task with the id has its completed flag negated; nothing else changes. */
  function Toggled(ts: seq<Task>, id: int): (r: seq<Task>)
    ensures |r| == |ts|
    ensures forall j :: 0 <= j < |ts| ==> r[j] == ts[j].(completed := r[j].completed)
    ensures forall j :: 0 <= j < |ts| ==> (r[j].completed != ts[j].completed <==> j == FindIndex(ts, id))
  {
    var i := FindIndex(ts, id);
    if i == -1 then ts else ts[i := ts[i].(completed := !ts[i].completed)]
  }

  /**
   * updateTask: the first task with the id gets the new text and date and
   * keeps its id, completed flag, createdAt and position; nothing else changes.
   */
  function Edited(ts: seq<Task>, id: int, text: string, date: string): (r: seq<Task>)
    ensures |r| == |ts|
    ensures forall j :: 0 <= j < |ts| && j != FindIndex(ts, id) ==> r[j] == ts[j]
    ensures FindIndex(ts, id) != -1 ==>
      var i := FindIndex(ts, id);
      && r[i].id == ts[i].id && r[i].completed == ts[i].completed && r[i].createdAt == ts[i].createdAt
      && r[i].text == text && r[i].date == date
  {
    var i := FindIndex(ts, id);
    if i == -1 then ts else ts[i := ts[i].(text := text, date := date)]
  }

  /** deleteTask: every task with the id goes, the others stay in their order. */
  function Removed(ts: seq<Task>, id: int): (r: seq<Task>)
    ensures forall t :: t in r <==> t in ts && t.id != id
    ensures SubsequenceOf(r, ts)
  {
    KeepIsSubsequence(ts, OtherId(id));
    Keep(ts, OtherId(id))
  }

  /** The filter views of getFilteredTasks: "active", "completed", anything else shows all. */
  function Filtered(ts: seq<Task>, filter: string): (r: seq<Task>)
    ensures SubsequenceOf(r, ts)
    ensures filter == "active" ==> forall t :: t in r <==> t in ts && !t.completed
    ensures filter == "active" ==>
      forall t :: multiset(r)[t] == if !t.completed then multiset(ts)[t] else 0
    ensures filter == "completed" ==> forall t :: t in r <==> t in ts && t.completed
    ensures filter == "completed" ==>
      forall t :: multiset(r)[t] == if t.completed then multiset(ts)[t] else 0
    ensures filter != "active" && filter != "completed" ==> r == ts
  {
    if filter == "active" then
      KeepIsSubsequence(ts, IsActive);
      KeepMultiplicity(ts, IsActive);
      Keep(ts, IsActive)
    else if filter == "completed" then
      KeepIsSubsequence(ts, IsCompleted);
      KeepMultiplicity(ts, IsCompleted);
      Keep(ts, IsCompleted)
    else
      SubsequenceOfSelf(ts);
      ts
  }

  /** The three numbers of updateCounter; active and completed always add up to the total. */
  function CountsOf(ts: seq<Task>): (c: Counts)
    ensures c.total == |ts|
    ensures c.active + c.completed == c.total
    ensures c.active == |Filtered(ts, "active")| && c.completed == |Filtered(ts, "completed")|
  {
    KeepPartition(ts, IsActive, IsCompleted);
    Counts(|ts|, |Keep(ts, IsActive)|, |Keep(ts, IsCompleted)|)
  }

  lemma {:induction false} SubsequenceOfSelf<T>(s: seq<T>)
    ensures SubsequenceOf(s, s)
  {
    if s != [] {
      SubsequenceOfSelf(s[1..]);
    }
  }

  // ---------------------------------------------------------------------------
  // Properties of the operations

  /** Toggling the same id twice restores the list. */
  lemma ToggleTwice(ts: seq<Task>, id: int)
    ensures Toggled(Toggled(ts, id), id) == ts
  {
  }

  /** Toggling an id that is absent changes nothing. */
  lemma ToggleUnknown(ts: seq<Task>, id: int)
    requires forall j :: 0 <= j < |ts| ==> ts[j].id != id
    ensures Toggled(ts, id) == ts
  {
  }

  /** A toggle moves exactly one task between the active and the completed counters. */
  lemma {:induction false} ToggleMovesOne(ts: seq<Task>, id: int)
    requires FindIndex(ts, id) != -1
    ensures var i := FindIndex(ts, id);
      && CountsOf(Toggled(ts, id)).total == CountsOf(ts).total
      && CountsOf(Toggled(ts, id)).active == CountsOf(ts).active + (if ts[i].completed then 1 else -1)
      && CountsOf(Toggled(ts, id)).completed == CountsOf(ts).completed + (if ts[i].completed then -1 else 1)
  {
    var i := FindIndex(ts, id);
    var x := ts[i].(completed := !ts[i].completed);
    assert Toggled(ts, id) == ts[i := x];
    KeepReplace(ts, i, x, IsActive);
    KeepReplace(ts, i, x, IsCompleted);
  }

  /** Deleting an id that is absent yields the identical list. */
  lemma {:induction false} RemoveUnknown(ts: seq<Task>, id: int)
    requires forall j :: 0 <= j < |ts| ==> ts[j].id != id
    ensures Removed(ts, id) == ts
  {
    KeepAll(ts, OtherId(id));
  }

  /** Deleting keeps every task whose id differs with its multiplicity, and drops every copy of the id. */
  lemma RemoveMultiplicity(ts: seq<Task>, id: int, t: Task)
    ensures multiset(Removed(ts, id))[t] == if t.id != id then multiset(ts)[t] else 0
  {
    KeepMultiplicity(ts, OtherId(id));
  }

  /** No two tasks of the list share an id. */
  ghost predicate UniqueIds(ts: seq<Task>)
  {
    forall i, j :: 0 <= i < j < |ts| ==> ts[i].id != ts[j].id
  }

  /** Deleting keeps unique ids unique. */
  lemma RemoveKeepsUnique(ts: seq<Task>, id: int)
    requires UniqueIds(ts)
    ensures UniqueIds(Removed(ts, id))
  {
    KeepKeepsUnique(ts, OtherId(id));
  }

  /** With unique ids, deleting a present id removes exactly the one task at its index. */
  lemma RemoveUnique(ts: seq<Task>, id: int)
    requires UniqueIds(ts) && FindIndex(ts, id) != -1
    ensures var i := FindIndex(ts, id); Removed(ts, id) == ts[..i] + ts[i + 1..]
  {
    var i := FindIndex(ts, id);
    var p := OtherId(id);
    forall k | 0 <= k < |ts| && k != i ensures p(ts[k]) {
      assert ts[k].id != ts[i].id;
    }
    KeepDropsOne(ts, p, i);
  }

  /** No task of the list carries the id. */
  ghost predicate FreshId(ts: seq<Task>, id: int)
  {
    forall j :: 0 <= j < |ts| ==> ts[j].id != id
  }

  /** Prepending a task whose id is fresh keeps the ids unique. */
  lemma AddFreshKeepsUnique(ts: seq<Task>, t: Task)
    requires UniqueIds(ts) && FreshId(ts, t.id)
    ensures UniqueIds([t] + ts)
  {
  }

  /** Toggle and edit keep every id in place, so unique ids stay unique. */
  lemma ToggleEditKeepUnique(ts: seq<Task>, id: int, text: string, date: string)
    requires UniqueIds(ts)
    ensures UniqueIds(Toggled(ts, id)) && UniqueIds(Edited(ts, id, text, date))
  {
  }

  /** A stored task has a trimmed, non-empty text and a non-empty date, as the form enforces. */
  ghost predicate Stored(t: Task)
  {
    Trim(t.text) == t.text != [] && t.date != []
  }

  /** Every task of the list passed the form's validation. */
  ghost predicate WellFormed(ts: seq<Task>)
  {
    forall j :: 0 <= j < |ts| ==> Stored(ts[j])
  }

  /** Prepending a task built from validated input keeps the stored-text invariant. */
  lemma AddKeepsWellFormed(input: string, date: string, ts: seq<Task>, id: int, at: string)
    requires Trim(input) != [] && date != []
    ensures WellFormed(ts) ==> WellFormed([Task(id, Trim(input), date, false, at)] + ts)
  {
  }

  /** Editing with validated input keeps the stored-text invariant. */
  lemma EditKeepsWellFormed(input: string, date: string, ts: seq<Task>, id: int)
    requires Trim(input) != [] && date != []
    ensures WellFormed(ts) ==> WellFormed(Edited(ts, id, Trim(input), date))
  {
  }

  /** Toggle and delete keep the stored-text invariant. */
  lemma ToggleRemoveKeepWellFormed(ts: seq<Task>, id: int)
    requires WellFormed(ts)
    ensures WellFormed(Toggled(ts, id)) && WellFormed(Removed(ts, id))
  {
    var t := Toggled(ts, id);
    forall j | 0 <= j < |t| ensures Stored(t[j]) {
      assert t[j].text == ts[j].text && t[j].date == ts[j].date;
    }
    var r := Removed(ts, id);
    forall j | 0 <= j < |r| ensures Stored(r[j]) {
      assert r[j] in ts;
    }
  }
}
