/**
 * The day-2 in-memory user service: a class holding a private list of
 * users, with an append, a lookup by id and a listing.
 */
module Service {
  import opened ArrayFind

  datatype User = User(id: int, name: string, email: string)

  class UserService {
    /** The users in the order they were added. */
    var users: seq<User>

    /** The service starts empty. */
    constructor ()
      ensures users == []
    {
      users := [];
    }

    /** `addUser`: appends the user, whatever its id; nothing already
        stored changes. */
    method AddUser(user: User)
      modifies this
      ensures users == old(users) + [user]
      ensures forall id :: old(GetUserById(id)).Some? ==> GetUserById(id) == old(GetUserById(id))
      ensures old(GetUserById(user.id)).None? ==> GetUserById(user.id) == Some(user)
    {
      ghost var before := users;
      users := users + [user];
      forall id: int
        ensures GetUserById(id) == match old(GetUserById(id))
                                   case Some(v) => Some(v)
                                   case None => if user.id == id then Some(user) else None
      {
        FindAppend(before, user, (u: User) => u.id == id);
      }
    }

    /** `getUserById`: the earliest-added user with the id, or `None`. */
    function GetUserById(id: int): (r: Option<User>)
      reads this
      ensures r.None? <==> forall i :: 0 <= i < |users| ==> users[i].id != id
      ensures r.Some? ==> r.value.id == id
      ensures r.Some? ==> exists k :: 0 <= k < |users| && users[k] == r.value && forall j :: 0 <= j < k ==> users[j].id != id
    {
      Find(users, (u: User) => u.id == id)
    }

    /** `list`: every added user, in insertion order. */
    function List(): (r: seq<User>)
      reads this
      ensures r == users
    {
      users
    }
  }

  /** The driver script's run: two users are added, the listing holds both
      in order, id 1 finds the first and id 3 finds nothing. */
  method DriverRun() returns (all: seq<User>, first: Option<User>, third: Option<User>)
    ensures all == [User(1, "太郎", "taro@example.com"), User(2, "花子", "hanako@example.com")]
    ensures first == Some(User(1, "太郎", "taro@example.com"))
    ensures third == None
  {
    var service := new UserService();
    var taro := User(1, "太郎", "taro@example.com");
    var hanako := User(2, "花子", "hanako@example.com");
    service.AddUser(taro);
    service.AddUser(hanako);
    all := service.List();
    first := service.GetUserById(1);
    third := service.GetUserById(3);
    assert all[0].id == 1 && all[1].id != 3;
  }

  /** No duplicate check: a second user with a taken id is stored too, and a
      lookup still answers with the first one. */
  method DuplicateIdAccepted(a: User, b: User) returns (all: seq<User>, found: Option<User>)
    requires a.id == b.id
    ensures all == [a, b]
    ensures found == Some(a)
  {
    var service := new UserService();
    service.AddUser(a);
    service.AddUser(b);
    all := service.List();
    found := service.GetUserById(a.id);
    assert all[0].id == a.id;
  }
}
