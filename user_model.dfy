/** The `users` collection of `server/models/UserModel.ts`: the document
    shape with its defaults, the filters the routes query with, and the
    checks MongoDB and the schema make when a document is created. */
module UserModel {
  import opened Wrappers

  const DefaultBiography := "This user has no biography"

  datatype User = User(
    id: string,
    email: string,
    password: string,
    username: string,
    profilePicture: string,
    biography: string,
    verified: bool)

  /** A document as `UserModel.create` completes it: the schema's defaults
      fill in `biography` and `verified`. */
  function NewUser(id: string, email: string, password: string, username: string, profilePicture: string): (u: User)
    ensures u.biography == DefaultBiography && !u.verified
    ensures u.id == id && u.email == email && u.password == password
    ensures u.username == username && u.profilePicture == profilePicture
  {
    User(id, email, password, username, profilePicture, DefaultBiography, false)
  }

  /** The query filters the routes use: `{ _id }`, `{ email }`, and the
      unique index on `username`. */
  datatype Filter = ById(id: string) | ByEmail(email: string) | ByUsername(username: string)

  predicate Matches(u: User, f: Filter)
  {
    match f
    case ById(id) => u.id == id
    case ByEmail(e) => u.email == e
    case ByUsername(n) => u.username == n
  }

  /** `UserModel.exists(filter)`. */
  predicate Exists(users: seq<User>, f: Filter)
  {
    exists i :: 0 <= i < |users| && Matches(users[i], f)
  }

  /** `UserModel.findOne(filter)`: the first matching document in the
      collection's natural order. */
  function FindOne(users: seq<User>, f: Filter): (r: Option<User>)
    ensures r.Some? ==> r.value in users && Matches(r.value, f)
    ensures r.None? <==> !Exists(users, f)
  {
    if users == [] then None
    else if Matches(users[0], f) then Some(users[0])
    else
      var r := FindOne(users[1..], f);
      assert Exists(users, f) ==> Exists(users[1..], f) by {
        if Exists(users, f) {
          var i :| 0 <= i < |users| && Matches(users[i], f);
          assert users[1..][i - 1] == users[i];
        }
      }
      assert Exists(users[1..], f) ==> Exists(users, f) by {
        if Exists(users[1..], f) {
          var i :| 0 <= i < |users[1..]| && Matches(users[1..][i], f);
          assert users[i + 1] == users[1..][i];
        }
      }
      r
  }

  /** The fields the schema marks `required` are non-empty strings. */
  predicate Required(u: User)
  {
    u.id != "" && u.email != "" && u.password != "" && u.username != "" && u.profilePicture != ""
  }

  /** Whether the collection accepts a new document: required fields are
      present, `_id` is a primary key and `username` carries a unique index. */
  predicate Accepts(users: seq<User>, u: User)
  {
    Required(u) && !Exists(users, ById(u.id)) && !Exists(users, ByUsername(u.username))
  }

  /** Every document has its required fields, and the collection's keys are
      distinct: ids and usernames by the schema, emails because signup
      refuses an existing email. */
  predicate Valid(users: seq<User>)
  {
    (forall i :: 0 <= i < |users| ==> Required(users[i])) &&
    forall i, j :: 0 <= i < j < |users| ==>
      users[i].id != users[j].id && users[i].email != users[j].email && users[i].username != users[j].username
  }

  /** Adding a document the collection accepts, with an email not yet in use,
      keeps every key distinct. */
  lemma AppendValid(users: seq<User>, u: User)
    requires Valid(users) && Accepts(users, u) && !Exists(users, ByEmail(u.email))
    ensures Valid(users + [u])
  {
    var us := users + [u];
    forall i | 0 <= i < |us| ensures Required(us[i]) {
      if i < |users| { assert us[i] == users[i]; } else { assert us[i] == u; }
    }
    forall i, j | 0 <= i < j < |us|
      ensures us[i].id != us[j].id && us[i].email != us[j].email && us[i].username != us[j].username
    {
      assert us[i] == users[i];
      if j == |users| {
        assert us[j] == u;
        assert Matches(users[i], ById(users[i].id));
        assert Matches(users[i], ByEmail(users[i].email));
        assert Matches(users[i], ByUsername(users[i].username));
      } else {
        assert us[j] == users[j];
      }
    }
  }

  /** In a valid collection a filter on a key finds the only document with
      that key. */
  lemma FindOneUnique(users: seq<User>, f: Filter, u: User)
    requires Valid(users) && u in users && Matches(u, f)
    ensures FindOne(users, f) == Some(u)
  {
    var v := FindOne(users, f).value;
    var i :| 0 <= i < |users| && users[i] == u;
    var j :| 0 <= j < |users| && users[j] == v;
    if i != j {
      assert false;
    }
  }
}
