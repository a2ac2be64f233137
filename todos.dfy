/** A user's todo list as a value: the todo record, the three scans the
    handlers run over a list (find, findIndex and filter by id), and the lists
    that update, mark-done and delete leave behind. */
module Todos {
  import opened Outcomes

  /** A deadline is either the date parsed from the text given at creation
      (kept opaque: parsing is not modelled) or, after an update, the value
      from the request body stored as it came. */
  datatype Deadline = Parsed(input: Option<string>) | Raw(value: Option<string>)

  /** A todo as the handlers build it; `createdAt` is the server clock reading
      taken at creation. */
  datatype Todo = Todo(id: string, title: Option<string>, done: bool, deadline: Deadline, createdAt: int)

  /** No todo in `s` has the id `id`. */
  predicate Absent(s: seq<Todo>, id: string)
  {
    forall j :: 0 <= j < |s| ==> s[j].id != id
  }

  /** The ids in `s` are pairwise distinct. */
  predicate UniqueIds(s: seq<Todo>)
  {
    forall i, j :: 0 <= i < j < |s| ==> s[i].id != s[j].id
  }

  /** `todos.find(todo => todo.id == id)`: the first todo with that id. */
  function Find(s: seq<Todo>, id: string): (r: Option<Todo>)
    ensures r.None? <==> Absent(s, id)
    ensures r.Some? ==> r.value in s && r.value.id == id
  {
    if s == [] then None
    else if s[0].id == id then Some(s[0])
    else
      var r := Find(s[1..], id);
      assert forall j :: 1 <= j < |s| ==> s[j] == s[1..][j - 1];
      r
  }

  /** `todos.findIndex(todo => todo.id == id)`: the index of the first todo
      with that id, or -1 when there is none. */
  function FindIndex(s: seq<Todo>, id: string): (k: int)
    ensures -1 <= k < |s|
    ensures k == -1 <==> Absent(s, id)
    ensures k >= 0 ==> s[k].id == id && forall j :: 0 <= j < k ==> s[j].id != id
  {
    if s == [] then -1
    else if s[0].id == id then 0
    else
      var k := FindIndex(s[1..], id);
      assert forall j :: 1 <= j < |s| ==> s[j] == s[1..][j - 1];
      if k == -1 then -1 else k + 1
  }

  /** `find` and `findIndex` with the same predicate pick the same todo. */
  lemma {:induction false} FindAgrees(s: seq<Todo>, id: string)
    ensures Find(s, id) == if FindIndex(s, id) == -1 then None else Some(s[FindIndex(s, id)])
  {
    if s != [] && s[0].id != id {
      FindAgrees(s[1..], id);
    }
  }

  /** Two lists with the same ids position by position give the same
      `findIndex` answer. */
  lemma {:induction false} FindIndexSameIds(s: seq<Todo>, s': seq<Todo>, id: string)
    requires |s| == |s'|
    requires forall j :: 0 <= j < |s| ==> s[j].id == s'[j].id
    ensures FindIndex(s, id) == FindIndex(s', id)
  {
    if s != [] && s[0].id != id {
      FindIndexSameIds(s[1..], s'[1..], id);
    }
  }

  /** `todos.filter(todo => todo.id != id)`: the list without the todos that
      have that id. */
  function Without(s: seq<Todo>, id: string): (r: seq<Todo>)
    ensures |r| <= |s|
    ensures forall t :: t in r <==> t in s && t.id != id
  {
    if s == [] then []
    else
      var rest := Without(s[1..], id);
      assert forall t :: t in s <==> t == s[0] || t in s[1..];
      if s[0].id == id then rest else [s[0]] + rest
  }

  /** Filtering keeps the order of what stays: it distributes over
      concatenation. */
  lemma {:induction false} WithoutAppend(a: seq<Todo>, b: seq<Todo>, id: string)
    ensures Without(a + b, id) == Without(a, id) + Without(b, id)
  {
    if a != [] {
      assert (a + b)[1..] == a[1..] + b;
      WithoutAppend(a[1..], b, id);
    } else {
      assert a + b == b;
    }
  }

  /** Every todo without the id stays, as often as it was there; every todo
      with the id goes. */
  lemma {:induction false} WithoutMultiplicity(s: seq<Todo>, id: string, t: Todo)
    ensures multiset(Without(s, id))[t] == if t.id == id then 0 else multiset(s)[t]
  {
    if s != [] {
      assert s == [s[0]] + s[1..];
      WithoutMultiplicity(s[1..], id, t);
    }
  }

  /** Filtering out an id that is not there gives back the same list. */
  lemma {:induction false} WithoutAbsent(s: seq<Todo>, id: string)
    requires Absent(s, id)
    ensures Without(s, id) == s
  {
    if s != [] {
      WithoutAbsent(s[1..], id);
    }
  }

  /** How many todos in `s` have the id `id`. */
  function Count(s: seq<Todo>, id: string): nat
  {
    if s == [] then 0 else (if s[0].id == id then 1 else 0) + Count(s[1..], id)
  }

  /** Filtering removes exactly the todos with that id. */
  lemma {:induction false} WithoutLength(s: seq<Todo>, id: string)
    ensures |Without(s, id)| + Count(s, id) == |s|
  {
    if s != [] {
      WithoutLength(s[1..], id);
    }
  }

  /** In a list with unique ids, an id that is present occurs once. */
  lemma {:induction false} CountUnique(s: seq<Todo>, id: string)
    requires UniqueIds(s) && !Absent(s, id)
    ensures Count(s, id) == 1
  {
    if s[0].id == id {
      CountAbsent(s[1..], id);
    } else {
      assert forall j :: 1 <= j < |s| ==> s[j] == s[1..][j - 1];
      CountUnique(s[1..], id);
    }
  }

  lemma {:induction false} CountAbsent(s: seq<Todo>, id: string)
    requires Absent(s, id)
    ensures Count(s, id) == 0
  {
    if s != [] {
      CountAbsent(s[1..], id);
    }
  }

  /** Deleting an id that is present from a list with unique ids shortens it
      by exactly one. */
  lemma DeleteShrinksByOne(s: seq<Todo>, id: string)
    requires UniqueIds(s) && !Absent(s, id)
    ensures |Without(s, id)| == |s| - 1
  {
    WithoutLength(s, id);
    CountUnique(s, id);
  }

  /** Filtering keeps ids unique. */
  lemma {:induction false} WithoutKeepsUnique(s: seq<Todo>, id: string)
    requires UniqueIds(s)
    ensures UniqueIds(Without(s, id))
  {
    if s != [] {
      assert forall j :: 1 <= j < |s| ==> s[j] == s[1..][j - 1];
      WithoutKeepsUnique(s[1..], id);
      var rest := Without(s[1..], id);
      if s[0].id != id {
        forall t | t in rest
          ensures t.id != s[0].id
        {
          var j :| 0 <= j < |s[1..]| && s[1..][j] == t;
          assert s[j + 1] == t;
        }
        var r := [s[0]] + rest;
        forall i, j | 0 <= i < j < |r|
          ensures r[i].id != r[j].id
        {
          if i == 0 {
            assert r[j] in rest;
          } else {
            assert r[i] == rest[i - 1] && r[j] == rest[j - 1];
          }
        }
      }
    }
  }

  /** The todo after an update: the title and deadline from the request, the
      deadline stored as given. */
  function Edited(t: Todo, title: Option<string>, deadline: Option<string>): (e: Todo)
    ensures e.id == t.id && e.done == t.done && e.createdAt == t.createdAt
    ensures e.title == title && e.deadline == Raw(deadline)
  {
    t.(title := title, deadline := Raw(deadline))
  }

  /** The list after `PUT /todos/:id`: the first todo with that id edited,
      nothing else changed. */
  function Updated(s: seq<Todo>, id: string, title: Option<string>, deadline: Option<string>): (r: seq<Todo>)
    ensures |r| == |s|
    ensures forall j :: 0 <= j < |s| && j != FindIndex(s, id) ==> r[j] == s[j]
    ensures Absent(s, id) ==> r == s
    ensures !Absent(s, id) ==> var k := FindIndex(s, id);
      r[k].id == s[k].id == id && r[k].done == s[k].done && r[k].createdAt == s[k].createdAt &&
      r[k].title == title && r[k].deadline == Raw(deadline)
  {
    var k := FindIndex(s, id);
    if k == -1 then s else s[k := Edited(s[k], title, deadline)]
  }

  /** The list after `PATCH /todos/:id/done`: the first todo with that id
      marked done, nothing else changed. */
  function Completed(s: seq<Todo>, id: string): (r: seq<Todo>)
    ensures |r| == |s|
    ensures forall j :: 0 <= j < |s| && j != FindIndex(s, id) ==> r[j] == s[j]
    ensures Absent(s, id) ==> r == s
    ensures !Absent(s, id) ==> var k := FindIndex(s, id); r[k] == s[k].(done := true)
  {
    var k := FindIndex(s, id);
    if k == -1 then s else s[k := s[k].(done := true)]
  }

  /** Neither update nor mark-done changes any id, so both keep the ids
      unique and keep `findIndex` pointing at the same position. */
  lemma SameIds(s: seq<Todo>, id: string, title: Option<string>, deadline: Option<string>, id': string)
    ensures UniqueIds(s) ==> UniqueIds(Updated(s, id, title, deadline)) && UniqueIds(Completed(s, id))
    ensures FindIndex(Updated(s, id, title, deadline), id') == FindIndex(s, id')
    ensures FindIndex(Completed(s, id), id') == FindIndex(s, id')
  {
    FindIndexSameIds(s, Updated(s, id, title, deadline), id');
    FindIndexSameIds(s, Completed(s, id), id');
  }

  /** Marking a todo done twice is the same as marking it done once. */
  lemma CompletedIdempotent(s: seq<Todo>, id: string)
    ensures Completed(Completed(s, id), id) == Completed(s, id)
  {
    SameIds(s, id, None, None, id);
  }

  /** Repeating an update with the same body changes nothing more. */
  lemma UpdatedIdempotent(s: seq<Todo>, id: string, title: Option<string>, deadline: Option<string>)
    ensures Updated(Updated(s, id, title, deadline), id, title, deadline) == Updated(s, id, title, deadline)
  {
    SameIds(s, id, title, deadline, id);
  }
}
