/** The task records and the three list updaters the component hands to `setTodos`:
    spread-append on create, `filter` on delete and `map` on edit. */
module Tasks {

  /** A task identifier: the JavaScript number stored in `id`, compared with `===`. */
  type Id = real

  /** A task record `{id, title, time, done}`. It is an object: the component keeps it in its
      state array and flips `done` on that very object, so `done` is the one mutable field. */
  class Task {
    const id: Id
    const title: string
    const time: string
    var done: bool

    constructor (id: Id, title: string, time: string, done: bool)
      ensures this.id == id && this.title == title && this.time == time && this.done == done
    {
      this.id := id;
      this.title := title;
      this.time := time;
      this.done := done;
    }
  }

  /** Some entry of `s` carries the identifier `id`. */
  predicate HasId(s: seq<Task>, id: Id)
  {
    exists i :: 0 <= i < |s| && s[i].id == id
  }

  /** `r` is `s` with some entries dropped and the others kept in their order. */
  ghost predicate IsSubsequence(r: seq<Task>, s: seq<Task>)
    decreases |s|
  {
    if r == [] then true
    else if s == [] then false
    else (r[0] == s[0] && IsSubsequence(r[1..], s[1..])) || IsSubsequence(r, s[1..])
  }

  /** `[...prevState, todo]`: the create updater. */
  function Append(s: seq<Task>, todo: Task): (r: seq<Task>)
    ensures |r| == |s| + 1
    ensures r[..|s|] == s && r[|s|] == todo
  {
    s + [todo]
  }

  /** `prevState.filter((todo) => todo.id !== id)`: the delete updater. */
  function WithoutId(s: seq<Task>, id: Id): (r: seq<Task>)
    ensures |r| <= |s|
    ensures forall i :: 0 <= i < |r| ==> r[i] in s && r[i].id != id
    ensures forall i :: 0 <= i < |s| && s[i].id != id ==> s[i] in r
  {
    if s == [] then []
    else
      assert forall i :: 1 <= i < |s| ==> s[i] == s[1..][i - 1];
      if s[0].id != id then [s[0]] + WithoutId(s[1..], id) else WithoutId(s[1..], id)
  }

  /** `prevState.map((t) => t.id === response.id ? response : t)`: the edit updater. */
  function ReplaceById(s: seq<Task>, response: Task): (r: seq<Task>)
    ensures |r| == |s|
    ensures forall i :: 0 <= i < |s| ==> r[i].id == s[i].id
    ensures forall i :: 0 <= i < |s| && s[i].id != response.id ==> r[i] == s[i]
    ensures forall i :: 0 <= i < |s| && s[i].id == response.id ==> r[i] == response
  {
    if s == [] then []
    else [if s[0].id == response.id then response else s[0]] + ReplaceById(s[1..], response)
  }

  /** Delete keeps the surviving entries in their original relative order. */
  lemma {:induction false} WithoutIdKeepsOrder(s: seq<Task>, id: Id)
    ensures IsSubsequence(WithoutId(s, id), s)
    decreases |s|
  {
    if s != [] {
      WithoutIdKeepsOrder(s[1..], id);
      var r := WithoutId(s, id);
      if s[0].id != id {
        assert r[0] == s[0] && r[1..] == WithoutId(s[1..], id);
      }
    }
  }

  /** Delete works entry by entry: deleting from a concatenation deletes from each part. */
  lemma {:induction false} WithoutIdConcat(a: seq<Task>, b: seq<Task>, id: Id)
    ensures WithoutId(a + b, id) == WithoutId(a, id) + WithoutId(b, id)
    decreases |a|
  {
    if a != [] {
      WithoutIdConcat(a[1..], b, id);
      assert (a + b)[0] == a[0] && (a + b)[1..] == a[1..] + b;
    } else {
      assert a + b == b;
    }
  }

  /** Delete leaves the list as it was exactly when no entry carries the identifier. */
  lemma {:induction false} WithoutIdUnchanged(s: seq<Task>, id: Id)
    ensures WithoutId(s, id) == s <==> !HasId(s, id)
    decreases |s|
  {
    if s != [] {
      WithoutIdUnchanged(s[1..], id);
      if s[0].id == id {
        assert HasId(s, id);
        assert |WithoutId(s, id)| <= |s[1..]|;
      } else {
        assert HasId(s, id) <==> HasId(s[1..], id) by {
          if HasId(s, id) {
            var i :| 0 <= i < |s| && s[i].id == id;
            assert s[1..][i - 1].id == id;
          }
          if HasId(s[1..], id) {
            var i :| 0 <= i < |s[1..]| && s[1..][i].id == id;
            assert s[i + 1].id == id;
          }
        }
      }
    }
  }

  /** Deleting the same identifier twice gives the same list as deleting it once. */
  lemma DeleteIdempotent(s: seq<Task>, id: Id)
    ensures WithoutId(WithoutId(s, id), id) == WithoutId(s, id)
  {
  }

  /** Deleting a task just appended under an identifier no older entry carries gives back the
      list from before the append. */
  lemma DeleteUndoesCreate(s: seq<Task>, todo: Task)
    requires !HasId(s, todo.id)
    ensures WithoutId(Append(s, todo), todo.id) == s
  {
    WithoutIdConcat(s, [todo], todo.id);
    WithoutIdUnchanged(s, todo.id);
    assert WithoutId([todo], todo.id) == WithoutId([], todo.id);
  }

  /** An edit whose response carries an identifier no entry has replaces nothing. */
  lemma ReplaceAbsentIsIdentity(s: seq<Task>, response: Task)
    requires !HasId(s, response.id)
    ensures ReplaceById(s, response) == s
  {
  }

  /** Applying the same edit response twice gives the same list as applying it once. */
  lemma ReplaceIdempotent(s: seq<Task>, response: Task)
    ensures ReplaceById(ReplaceById(s, response), response) == ReplaceById(s, response)
  {
  }

  /** Deleting the identifier an edit response carries removes the edited entries as well as
      the original ones: a delete after an edit of the same task leaves no trace of it. */
  lemma {:induction false} DeleteAfterEdit(s: seq<Task>, response: Task)
    ensures WithoutId(ReplaceById(s, response), response.id) == WithoutId(s, response.id)
    decreases |s|
  {
    if s != [] {
      DeleteAfterEdit(s[1..], response);
      var r := ReplaceById(s, response);
      assert r[1..] == ReplaceById(s[1..], response);
    }
  }
}
