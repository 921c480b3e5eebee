/**
 * The day-3 user store: an in-memory cache of user records, loaded from a
 * JSON data file at startup, served by `GET /users/:id` and extended by
 * `POST /users`, with every successful creation written back to the file.
 * The file is a ghost snapshot; the HTTP plumbing is reduced to the outcome
 * a handler sends.
 */
module App {
  import opened Text
  import opened ArrayFind

  datatype User = User(id: int, name: string)

  /** The `name` property of a POST body: a string, or any other JSON value
      (missing, a number, an object, ...). */
  datatype NameField = StringName(s: string) | NotAString

  /** What a handler sends back. */
  datatype Response = Ok(user: User) | Created(user: User) | NotFound | Invalid
  {
    /** The HTTP status code of the response. */
    function Status(): (code: int)
      ensures 200 <= code < 300 <==> Ok? || Created?
      ensures 400 <= code < 500 <==> NotFound? || Invalid?
    {
      match this
      case Ok(_) => 200
      case Created(_) => 201
      case NotFound => 404
      case Invalid => 422
    }

    /** The `detail` field of an error body; success bodies are the user. */
    function Detail(): (d: string)
      ensures d == [] <==> Ok? || Created?
    {
      match this
      case NotFound => "User not found"
      case Invalid => "name is required"
      case _ => ""
    }
  }

  /** The records written to a data file that does not exist at startup. */
  const Seed: seq<User> := [User(1, "Alice"), User(2, "Bob")]

  /** No two records share an id. */
  ghost predicate UniqueIds(users: seq<User>)
  {
    forall i, j :: 0 <= i < j < |users| ==> users[i].id != users[j].id
  }

  /** Every id is positive. */
  ghost predicate PositiveIds(users: seq<User>)
  {
    forall i :: 0 <= i < |users| ==> users[i].id > 0
  }

  /** `Math.max` over the ids of a non-empty collection. */
  function MaxId(users: seq<User>): (m: int)
    requires |users| > 0
    ensures forall i :: 0 <= i < |users| ==> users[i].id <= m
    ensures exists i :: 0 <= i < |users| && users[i].id == m
  {
    if |users| == 1 then users[0].id
    else
      var rest := MaxId(users[1..]);
      assert forall i :: 1 <= i < |users| ==> users[i] == users[1..][i - 1];
      if users[0].id >= rest then users[0].id else rest
  }

  /** The id a new record receives: one more than the largest id present,
      or 1 for an empty collection. It exceeds every existing id. */
  function NextId(users: seq<User>): (id: int)
    ensures forall i :: 0 <= i < |users| ==> users[i].id < id
    ensures users == [] ==> id == 1
    ensures users != [] ==> exists i :: 0 <= i < |users| && users[i].id == id - 1
  {
    if |users| > 0 then MaxId(users) + 1 else 1
  }

  /** The name check of `POST /users`: a non-string or a name that trims to
      the empty string is refused; otherwise the trimmed name is kept. */
  function ValidateName(name: NameField): (r: Option<string>)
    ensures r.None? <==> name.NotAString? || IsBlank(name.s)
    ensures r.Some? ==> name.StringName? && r.value == Trim(name.s)
    ensures r.Some? ==> r.value != [] && IsUnpadded(r.value)
  {
    match name
    case NotAString => None
    case StringName(s) =>
      TrimEmptyIffBlank(s);
      var t := Trim(s);
      if t == [] then None else Some(t)
  }

  /** The result of a request: the response and the collection afterwards. */
  datatype Outcome = Outcome(response: Response, users: seq<User>)

  /** What `GET /users/:id` answers: the first record with the id, or 404. */
  function Lookup(users: seq<User>, id: int): (r: Response)
    ensures r.Ok? || r.NotFound?
    ensures r.NotFound? <==> forall i :: 0 <= i < |users| ==> users[i].id != id
    ensures r.Ok? ==> r.user.id == id
    ensures r.Ok? ==> exists k :: 0 <= k < |users| && users[k] == r.user && forall j :: 0 <= j < k ==> users[j].id != id
  {
    match Find(users, (u: User) => u.id == id)
    case Some(u) => Ok(u)
    case None => NotFound
  }

  /** What `POST /users` does to the collection `users`: a refused name
      leaves it as it is; an accepted one appends a record with the next id
      and the trimmed name, and nothing else changes. */
  function CreateStep(users: seq<User>, name: NameField): (o: Outcome)
    ensures o.response.Created? || o.response.Invalid?
    ensures o.response.Invalid? <==> name.NotAString? || IsBlank(name.s)
    ensures o.response.Invalid? ==> o.users == users
    ensures o.response.Created? ==> name.StringName? && o.response.user == User(NextId(users), Trim(name.s))
    ensures o.response.Created? ==> o.response.user.name != [] && IsUnpadded(o.response.user.name)
    ensures o.response.Created? ==> forall i :: 0 <= i < |users| ==> users[i].id < o.response.user.id
    ensures o.response.Created? ==> o.users == users + [o.response.user]
  {
    match ValidateName(name)
    case None => Outcome(Invalid, users)
    case Some(trimmed) =>
      var user := User(NextId(users), trimmed);
      Outcome(Created(user), users + [user])
  }

  /** Appending a record with a positive id above every existing id keeps
      the ids unique and positive. */
  lemma AppendKeepsIdsValid(users: seq<User>, user: User)
    requires UniqueIds(users) && PositiveIds(users)
    requires user.id > 0
    requires forall i :: 0 <= i < |users| ==> users[i].id < user.id
    ensures UniqueIds(users + [user]) && PositiveIds(users + [user])
  {
    var grown := users + [user];
    forall i, j | 0 <= i < j < |grown| ensures grown[i].id != grown[j].id {
      assert grown[i] == users[i];
      if j < |users| {
        assert grown[j] == users[j];
      }
    }
    forall i | 0 <= i < |grown| ensures grown[i].id > 0 {
      if i < |users| {
        assert grown[i] == users[i];
      }
    }
  }

  /** A create keeps the ids of a collection unique and positive. */
  lemma CreateKeepsIdsValid(users: seq<User>, name: NameField)
    requires UniqueIds(users) && PositiveIds(users)
    ensures UniqueIds(CreateStep(users, name).users)
    ensures PositiveIds(CreateStep(users, name).users)
  {
    var o := CreateStep(users, name);
    if o.response.Created? {
      var user := o.response.user;
      assert user.id > 0 by {
        if users != [] {
          var k :| 0 <= k < |users| && users[k].id == NextId(users) - 1;
        }
      }
      AppendKeepsIdsValid(users, user);
    }
  }

  /** The seed state has unique, positive ids. */
  lemma SeedIdsValid()
    ensures UniqueIds(Seed) && PositiveIds(Seed)
  {
  }

  /** On the seed state, id 1 is Alice and id 99 is not found. */
  lemma SeedLookups()
    ensures Lookup(Seed, 1) == Ok(User(1, "Alice"))
    ensures Lookup(Seed, 99) == NotFound
  {
  }

  /** The seed state's next id is 3. */
  lemma SeedNextId()
    ensures NextId(Seed) == 3
  {
  }

  /** "  Carol  " is accepted under the name "Carol". */
  lemma CarolNameAccepted()
    ensures ValidateName(StringName("  Carol  ")) == Some("Carol")
  {
    assert Trim("  Carol  ") == "Carol" by {
      assert "  " + "Carol" + "  " == "  Carol  ";
      TrimOfPadded("  ", "Carol", "  ");
    }
  }

  /** On the seed state, "  Carol  " becomes record 3 under her trimmed
      name. */
  lemma SeedCreateCarol()
    ensures CreateStep(Seed, StringName("  Carol  ")) == Outcome(Created(User(3, "Carol")), Seed + [User(3, "Carol")])
  {
    SeedNextId();
    CarolNameAccepted();
  }

  /** Once Carol is added, id 3 finds her. */
  lemma LookupCarol()
    ensures Lookup(Seed + [User(3, "Carol")], 3) == Ok(User(3, "Carol"))
  {
    var grown := Seed + [User(3, "Carol")];
    assert grown[2].id == 3 && grown[0].id != 3 && grown[1].id != 3;
  }

  /** A name of three spaces is refused whatever the collection holds. */
  lemma BlankNameRefused(users: seq<User>)
    ensures CreateStep(users, StringName("   ")) == Outcome(Invalid, users)
  {
  }

  /** The process-wide store: the `users` cache and the data file behind it. */
  class UserStore {
    /** The in-memory collection, in insertion order. */
    var users: seq<User>
    /** The records the data file holds. */
    ghost var persisted: seq<User>

    /** The cache and the file agree. */
    ghost predicate Synced()
      reads this
    {
      persisted == users
    }

    /** Startup (`loadUsers`): a missing data file is first written with the
        seed records; the cache is then what the file holds. `fileExists`
        and `fileContents` stand for the existence check and the parsed
        contents of an existing file. */
    constructor Load(fileExists: bool, fileContents: seq<User>)
      ensures Synced()
      ensures users == if fileExists then fileContents else Seed
    {
      var contents := fileContents;
      if !fileExists {
        contents := Seed;
      }
      persisted := contents;
      users := contents;
    }

    /** The `GET /users/:id` handler; it reads the cache and changes nothing. */
    method Get(id: int) returns (res: Response)
      ensures res == Lookup(users, id)
    {
      res := Lookup(users, id);
    }

    /** The `POST /users` handler: on an accepted name the cache is replaced
        by the extended collection and that collection is written to the
        file (`saveUsers`). */
    method Create(name: NameField) returns (res: Response)
      requires Synced()
      modifies this
      ensures Synced()
      ensures res == CreateStep(old(users), name).response
      ensures users == CreateStep(old(users), name).users
    {
      var trimmed := ValidateName(name);
      if trimmed.None? {
        return Invalid;
      }
      var user := User(NextId(users), trimmed.value);
      users := users + [user];
      persisted := users;
      res := Created(user);
    }
  }

  /** A store started without a data file answers the two lookups of the
      seed scenario as the request-level functions say. */
  method FreshStoreLookups() returns (alice: Response, missing: Response)
    ensures alice == Ok(User(1, "Alice")) && alice.Status() == 200
    ensures missing == NotFound && missing.Status() == 404
    ensures missing.Detail() == "User not found"
  {
    SeedLookups();
    var store := new UserStore.Load(false, []);
    alice := store.Get(1);
    missing := store.Get(99);
  }

  /** A store started without a data file creates Carol as record 3, finds
      her, refuses a blank name and ends with three records. */
  method FreshStoreCreates() returns (carol: Response, carolAgain: Response, blank: Response, last: seq<User>)
    ensures carol == Created(User(3, "Carol")) && carol.Status() == 201
    ensures carolAgain == Ok(User(3, "Carol"))
    ensures blank == Invalid && blank.Status() == 422
    ensures blank.Detail() == "name is required"
    ensures last == Seed + [User(3, "Carol")]
  {
    var store := new UserStore.Load(false, []);
    carol := CreateCarolOnSeed(store);
    carolAgain, blank := FindCarolRefuseBlank(store);
    last := store.users;
  }

  /** On a store holding the seed records, creating "  Carol  " answers
      record 3 and appends it. */
  method CreateCarolOnSeed(store: UserStore) returns (carol: Response)
    requires store.Synced() && store.users == Seed
    modifies store
    ensures store.Synced()
    ensures carol == Created(User(3, "Carol"))
    ensures store.users == Seed + [User(3, "Carol")]
  {
    SeedCreateCarol();
    carol := store.Create(StringName("  Carol  "));
  }

  /** On a store holding the seed records and Carol, id 3 finds her and a
      name of three spaces is refused without changing the store. */
  method FindCarolRefuseBlank(store: UserStore) returns (carolAgain: Response, blank: Response)
    requires store.Synced() && store.users == Seed + [User(3, "Carol")]
    modifies store
    ensures store.Synced()
    ensures carolAgain == Ok(User(3, "Carol"))
    ensures blank == Invalid
    ensures store.users == Seed + [User(3, "Carol")]
  {
    LookupCarol();
    BlankNameRefused(Seed + [User(3, "Carol")]);
    carolAgain := store.Get(3);
    blank := store.Create(StringName("   "));
  }

  /** The data file round-trips: after any two creates on a store started
      from any file (or none), starting again from what the file then holds
      gives back exactly the cache, which is the collection the two
      request-level steps produce. */
  method ReloadAfterCreates(fileExists: bool, fileContents: seq<User>, first: NameField, second: NameField)
    returns (cached: seq<User>, ghost file: seq<User>, reloaded: seq<User>)
    ensures cached == CreateStep(CreateStep(if fileExists then fileContents else Seed, first).users, second).users
    ensures file == cached
    ensures reloaded == file
  {
    var store := new UserStore.Load(fileExists, fileContents);
    var _ := store.Create(first);
    var _ := store.Create(second);
    cached := store.users;
    file := store.persisted;
    var restarted := new UserStore.Load(true, store.users);
    reloaded := restarted.users;
  }
}
