/**
  The documents the handlers read and write, and the in-memory store that
  stands in for the two collections. A collection is a sequence in the
  store's natural (insertion) order; a lookup returns the first match, as
  `findOne` and `findById` do; an insert appends.
 */
module Store {
  import opened Seqs

  /** Object ids, compared through their string form as the handlers do with `toString()`. */
  type Id = string

  /** A JSON value a client may send in a request body. `Compound` is an
      object or an array, represented by the string its validator sees. */
  datatype Value =
    | Str(s: string)
    | Num(n: int)
    | Bool(b: bool)
    | Null
    | Compound(text: string)

  /** A request-body field: `None` when the client left it out. */
  type Field = Option<Value>

  /** The decimal digits of a natural number. */
  function Digits(n: nat): string
    decreases n
  {
    var d := [(('0' as int) + n % 10) as char];
    if n < 10 then d else Digits(n / 10) + d
  }

  /** JavaScript's string form of an integer. */
  function Decimal(n: int): string
  {
    if n < 0 then "-" + Digits(-n) else Digits(n)
  }

  /** The string a validator sees, and the string the store keeps when it
      casts the field to a string: a missing field and `null` read as the
      empty string. */
  function AsText(f: Field): string
  {
    match f
    case None => ""
    case Some(Str(s)) => s
    case Some(Num(n)) => Decimal(n)
    case Some(Bool(b)) => if b then "true" else "false"
    case Some(Null) => ""
    case Some(Compound(text)) => text
  }

  /** The client sent this field as a JSON string. */
  predicate IsString(f: Field)
  {
    f.Some? && f.value.Str?
  }

  datatype Like = Like(user: Id)

  datatype Comment = Comment(id: Id, user: Id, text: string, name: string, avatar: string, date: int)

  datatype Post = Post(
    id: Id,
    user: Id,           // the owner
    text: string,
    name: string,
    avatar: string,
    likes: seq<Like>,
    comments: seq<Comment>,
    date: int)

  datatype User = User(id: Id, name: string, email: string, avatar: string, password: string, date: int)

  /** A user record as sent to a client: every field but the password. */
  datatype PublicUser = PublicUser(id: Id, name: string, email: string, avatar: string, date: int)

  datatype Db = Db(users: seq<User>, posts: seq<Post>)

  /** Is there a stored user with this email? */
  ghost predicate EmailTaken(users: seq<User>, email: string)
  {
    exists k :: 0 <= k < |users| && users[k].email == email
  }

  /** No two stored users share an email. */
  ghost predicate EmailsUnique(users: seq<User>)
  {
    forall i, j :: 0 <= i < j < |users| ==> users[i].email != users[j].email
  }

  /** `User.findOne({ email })`: the first user with this email. */
  function UserByEmail(users: seq<User>, email: string): (r: Option<nat>)
    ensures r.None? <==> !EmailTaken(users, email)
    ensures r.Some? ==> r.value < |users| && users[r.value].email == email
    ensures r.Some? ==> forall k :: 0 <= k < r.value ==> users[k].email != email
  {
    FirstIndex(users, (u: User) => u.email == email)
  }

  /** `User.findById(id)`: the first user with this id. */
  function UserById(users: seq<User>, id: Id): (r: Option<nat>)
    ensures r.None? <==> forall k :: 0 <= k < |users| ==> users[k].id != id
    ensures r.Some? ==> r.value < |users| && users[r.value].id == id
    ensures r.Some? ==> forall k :: 0 <= k < r.value ==> users[k].id != id
  {
    FirstIndex(users, (u: User) => u.id == id)
  }

  /** `Post.findById(id)`: the first post with this id. */
  function PostById(posts: seq<Post>, id: Id): (r: Option<nat>)
    ensures r.None? <==> forall k :: 0 <= k < |posts| ==> posts[k].id != id
    ensures r.Some? ==> r.value < |posts| && posts[r.value].id == id
    ensures r.Some? ==> forall k :: 0 <= k < r.value ==> posts[k].id != id
  {
    FirstIndex(posts, (p: Post) => p.id == id)
  }

  /** Number of stored users with this email. */
  function UsersWithEmail(users: seq<User>, email: string): (n: nat)
    ensures n == 0 <==> !EmailTaken(users, email)
  {
    Count(users, (u: User) => u.email == email)
  }

  /** Inserting a user raises the count for its email by one and leaves every other count alone. */
  lemma UsersWithEmailAppend(users: seq<User>, u: User, email: string)
    ensures UsersWithEmail(users + [u], email)
         == UsersWithEmail(users, email) + (if u.email == email then 1 else 0)
  {
    CountAppend(users, u, (v: User) => v.email == email);
  }
}
