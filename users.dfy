/** The user record and the lookups over the collection of users. */
module Users {
  import opened Outcomes
  import opened Todos

  /** A registered user. Id, name and username are fixed at registration;
      the todo list belongs to the user and the todo routes change it in
      place, through the reference the identification gate hands them. */
  class User {
    const id: string
    const name: string
    const username: string
    var todos: seq<Todo>

    /** The user that registration builds: the given id, name and username
        and no todos yet. */
    constructor (id: string, name: string, username: string)
      ensures this.id == id && this.name == name && this.username == username
      ensures todos == []
    {
      this.id := id;
      this.name := name;
      this.username := username;
      todos := [];
    }
  }

  /** No user in `users` has the username carried by `header` (an absent
      header matches nobody). */
  predicate NoUserNamed(users: seq<User>, header: Option<string>)
  {
    forall i :: 0 <= i < |users| ==> header != Some(users[i].username)
  }

  /** The usernames in `users` are pairwise distinct. */
  predicate DistinctUsernames(users: seq<User>)
  {
    forall i, j :: 0 <= i < j < |users| ==> users[i].username != users[j].username
  }

  /** `users.find(user => user.username == username)`: the first user whose
      username equals the given value. */
  function FindUser(users: seq<User>, header: Option<string>): (r: Option<User>)
    ensures r.None? <==> NoUserNamed(users, header)
    ensures r.Some? ==> r.value in users && header == Some(r.value.username)
  {
    if users == [] then None
    else if header == Some(users[0].username) then Some(users[0])
    else
      var r := FindUser(users[1..], header);
      assert forall j :: 1 <= j < |users| ==> users[j] == users[1..][j - 1];
      r
  }

  /** With distinct usernames, looking a username up finds exactly the user
      who holds it. */
  lemma {:induction false} FindUserUnique(users: seq<User>, i: int)
    requires DistinctUsernames(users) && 0 <= i < |users|
    ensures FindUser(users, Some(users[i].username)) == Some(users[i])
  {
    if i > 0 {
      assert forall j :: 1 <= j < |users| ==> users[j] == users[1..][j - 1];
      FindUserUnique(users[1..], i - 1);
    }
  }

  /** Appending a user whose username nobody holds keeps usernames distinct. */
  lemma AppendKeepsDistinct(users: seq<User>, u: User)
    requires DistinctUsernames(users) && NoUserNamed(users, Some(u.username))
    ensures DistinctUsernames(users + [u])
  {
    var all := users + [u];
    forall i, j | 0 <= i < j < |all|
      ensures all[i].username != all[j].username
    {
      assert all[i] == users[i];
      if j < |users| {
        assert all[j] == users[j];
      }
    }
  }
}
