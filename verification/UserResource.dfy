/** The user handlers: registration, lookup, deletion, listing and login.
    None of them asks for a token. */
module UserResource {
  import opened Credentials
  import opened Catalog

  predicate UsernameTaken(s: State, username: string)
  {
    exists id :: id in s.users && s.users[id].username == username
  }

  /** POST /register: a taken username is refused with 409; otherwise a user
      is added under the fresh key `newId`, keeping only the digest of the
      password, salted with `salt`. */
  function Register(s: State, username: string, password: string, salt: nat, newId: int, fault: DbFault): (r: Step)
    requires newId !in s.users
    ensures r.status == Conflict <==> UsernameTaken(s, username)
    ensures r.status == Created <==> !UsernameTaken(s, username) && fault.NoFault?
    ensures r.status in {Created, Conflict, ServerError}
    ensures r.status != Created ==> r.state == s
    ensures r.status == Created ==>
      && r.state.users.Keys == s.users.Keys + {newId}
      && r.state.users[newId].username == username
      && r.state.users[newId].password == Hash(password, salt)
      && Verify(password, r.state.users[newId].password)
      && (forall u :: u in s.users ==> r.state.users[u] == s.users[u])
      && r.state.stores == s.stores && r.state.items == s.items
      && r.state.tags == s.tags && r.state.links == s.links
  {
    if UsernameTaken(s, username) then Step(Conflict, s)
    else
      VerifyOwnHash(password, salt);
      Commit(s, s.(users := s.users[newId := User(username, Hash(password, salt))]), Created, fault)
  }

  /** GET /user/<id> */
  function GetUser(s: State, id: int): (r: Result<User>)
    ensures r.Found? <==> id in s.users
    ensures r.Found? ==> r.value == s.users[id]
    ensures r.Failed? ==> r.status == NotFound
  {
    if id in s.users then Found(s.users[id]) else Failed(NotFound)
  }

  /** GET /user */
  function ListUsers(s: State): (r: map<int, User>)
    ensures forall id :: id in r <==> GetUser(s, id).Found?
    ensures forall id :: id in r ==> GetUser(s, id) == Found(r[id])
  {
    s.users
  }

  /** DELETE /user/<id>: 404 if absent, otherwise exactly that user goes. */
  function DeleteUser(s: State, id: int, fault: DbFault): (r: Step)
    ensures r.status == NotFound <==> id !in s.users
    ensures r.status == Ok <==> id in s.users && fault.NoFault?
    ensures r.status in {Ok, NotFound, ServerError}
    ensures r.status != Ok ==> r.state == s
    ensures r.status == Ok ==>
      && r.state.users.Keys == s.users.Keys - {id}
      && (forall u :: u in r.state.users ==> r.state.users[u] == s.users[u])
      && r.state.stores == s.stores && r.state.items == s.items
      && r.state.tags == s.tags && r.state.links == s.links
  {
    if id !in s.users then Step(NotFound, s)
    else Commit(s, s.(users := s.users - {id}), Ok, fault)
  }

  /** The first user found with `username`, as the login query does. */
  method FindUser(users: map<int, User>, username: string) returns (r: Option<int>)
    ensures r.Some? ==> r.value in users && users[r.value].username == username
    ensures r.None? ==> forall id :: id in users ==> users[id].username != username
  {
    var rest := users.Keys;
    while exists u :: u in rest
      invariant rest <= users.Keys
      invariant forall id :: id in users && id !in rest ==> users[id].username != username
      decreases rest
    {
      var u :| u in rest;
      if users[u].username == username {
        return Some(u);
      }
      rest := rest - {u};
    }
    return None;
  }

  /** POST /login: a token for the user's id when the user named
      `username` exists and `password` verifies against its digest; 401
      otherwise, the same answer for an unknown name and a wrong password.
      With unique usernames, a token is issued exactly when some user has
      that name and password. */
  method Login(s: State, username: string, password: string) returns (r: Result<int>)
    ensures r.Failed? ==> r.status == Unauthorized
    ensures r.Found? ==>
      r.value in s.users && s.users[r.value].username == username
      && Verify(password, s.users[r.value].password)
    ensures !UsernameTaken(s, username) ==> r == Failed(Unauthorized)
    ensures UsernamesUnique(s) ==>
      (r.Found? <==> exists id :: id in s.users && s.users[id].username == username
                                   && Verify(password, s.users[id].password))
  {
    var found := FindUser(s.users, username);
    r := Failed(Unauthorized);
    if found.Some? {
      var id := found.value;
      assert id in s.users && s.users[id].username == username;
      assert UsernameTaken(s, username);
      if Verify(password, s.users[id].password) {
        r := Found(id);
      } else if UsernamesUnique(s) {
        forall other | other in s.users && s.users[other].username == username
          ensures !Verify(password, s.users[other].password)
        {
          assert s.users[other].username == s.users[id].username;
          assert other == id;
        }
      }
    }
  }

  /** A user who registered can log in with the same password. */
  method RegisterThenLogin(s: State, username: string, password: string, salt: nat, newId: int)
    returns (r: Result<int>)
    requires UsernamesUnique(s) && newId !in s.users && !UsernameTaken(s, username)
    ensures r == Found(newId)
  {
    var s' := Register(s, username, password, salt, newId, NoFault).state;
    RegisterPreservesValid(s, username, password, salt, newId, NoFault);
    var stored := s'.users[newId];
    assert stored.username == username && Verify(password, stored.password);
    assert exists id :: id in s'.users && s'.users[id].username == username
                        && Verify(password, s'.users[id].password);
    r := Login(s', username, password);
    var v := r.value;
    assert s'.users[v].username == s'.users[newId].username;
  }

  lemma RegisterPreservesValid(s: State, username: string, password: string, salt: nat, newId: int, fault: DbFault)
    requires UsernamesUnique(s) && newId !in s.users
    ensures UsernamesUnique(Register(s, username, password, salt, newId, fault).state)
  {
  }

  /** A second registration under the same name is refused and adds nobody. */
  lemma RegisterTwice(s: State, username: string, p1: string, p2: string, salt1: nat, salt2: nat, id1: int, id2: int)
    requires id1 !in s.users && id2 != id1 && id2 !in s.users && !UsernameTaken(s, username)
    ensures var s1 := Register(s, username, p1, salt1, id1, NoFault).state;
            && |s1.users| == |s.users| + 1
            && Register(s1, username, p2, salt2, id2, NoFault) == Step(Conflict, s1)
  {
  }
}
