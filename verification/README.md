# DevConnector backend handlers in Dafny

This project models the decision logic of the DevConnector REST backend's
route handlers: registration (`POST /api/users`), login and the current user
(`POST` and `GET /api/auth`), and the post routes (`/api/posts`: create, list,
get, delete, like, unlike, comment, delete comment). Each handler is a pure
function from an in-memory store to an `Outcome`. An outcome pairs the HTTP
response (status code and JSON body) with the store after the request.
Requests are handled one at a time.

Layout:

- `seqs.dfy` (`Seqs`): the JavaScript array operations the handlers use
  (`find` and `filter`), the first-match position behind `find`, `findOne`
  and `findById`, and a subsequence relation. Each has a specification that
  does not mention its body.
- `store.dfy` (`Store`): users, posts, likes and comments, and the store.
  Each collection is a sequence in insertion order. A lookup (`findOne`,
  `findById`) returns the first match, and an insert appends.
- `external.dfy` (`External`): bcrypt, `isEmail` and gravatar are
  function-valued fields of a `Services` record. Only one fact about them is
  used: a password matches its own hash (`CompareAcceptsHash`). Lemmas take
  it as a hypothesis. Tokens carry their claims `{ user: { id } }` and their
  lifetime.
- `http.dfy` (`Http`): responses, bodies and validation errors.
- `users.dfy`, `auth.dfy`, `posts.dfy`: one module per route file.
- `post_laws.dfy` (`PostLaws`): properties that relate several post
  requests.

A request-body field is a JSON value (string, number, boolean, `null`, or
an object or array) or is missing. The validators see its string form. Only
the request body is modelled (see "## Left out").

Several things are parameters: the requester's id (set by the authentication
middleware), the ids and dates of new documents, and the random part of the
salt.

Some answers of the routes a reader might not expect:

- Unlike without a like answers 400 with a bare JSON string, not a `{ msg }`
  object.
- `GET /api/auth` answers 200 with `null` when no stored user has the
  requester's id.
- Like, unlike, comment and delete-comment dereference the post without
  checking that it exists, so a missing post gives 500 "Server Error", not
  404. The same holds for a missing requester record in create and comment.
- Deleting a comment checks only the first comment with the given id, then
  removes every comment with that id.
- The post-creation validation message is "Text is require", exactly as the
  route writes it.
- A registration password sent as a JSON number (say `1234567`) passes the
  length check. bcrypt then refuses to hash it, and the answer is 500
  "Server error".
- Login with a `null` (or any non-string) password: see "## Findings".

## Model

| member | source | states |
|---|---|---|
| Seqs.FirstIndex | routes/api/posts.js:116 | The result is the position of the first element that passes the test. It is none exactly when no element passes. |
| Seqs.Find | routes/api/posts.js:138 | The result is none exactly when no element passes the test. Otherwise it is an element of the sequence that passes. |
| Seqs.Filter | routes/api/posts.js:145 | Every result element passes the test. Each passing value keeps its multiplicity, and no other value remains. The result is a subsequence of the input, so order is kept. |
| Store.UserByEmail | routes/api/users.js:39 | The result is the first user with the email. It is none exactly when no user has that email. |
| Store.UserById | routes/api/auth.js:19 | The result is the first user with the id. It is none exactly when no user has that id. |
| Store.PostById | routes/api/posts.js:67 | The result is the first post with the id. It is none exactly when no post has that id. |
| Store.UsersWithEmailAppend | routes/api/users.js:65 | Inserting a user raises the count for its email by one. Counts for other emails do not change. |
| Users.RegistrationErrors | routes/api/users.js:20-33 | There are no errors exactly when the name is non-empty, the email is valid and the password has at least 6 characters. Each field is flagged iff its own check fails. Every entry is `{ param, value, msg }` (the validator's `location` is dropped) for name, email or password, with the value sent and that check's message. Entries appear in the declared order name, email, password. |
| Users.Register | routes/api/users.js:17-84 | Invalid input gives 400 with the errors array and no store change. A taken email gives 400 "User already exists" and no store change. A valid, new registration whose password is not a JSON string gives 500 "Server error" and no store change, because bcrypt refuses to hash it. The answer is 200 exactly when the input is valid, the email is new and the password is a string; then exactly one user is appended. The new user has the given name and email, the gravatar avatar (options 200/pg/mm) and password `hash(password, salt of cost 10)`. Existing users and posts are unchanged. The token is `{ user: { id } }` with `expiresIn` 360000. |
| Users.RegisterKeepsEmailsUnique | routes/api/users.js:39-65 | If emails are unique before a registration, they are unique after it. |
| Users.RegisterSameEmailTwice | routes/api/users.js:39-45 | Two registrations of one email in a row, the first with a string password: the first succeeds and the second gets "User already exists" and changes nothing. Exactly one stored user has that email. |
| Users.RegisterDistinctEmails | routes/api/users.js:54-65 | Two registrations with different new emails and string passwords both succeed. They store two users, one per email, in order. |
| Auth.CredentialErrors | routes/api/auth.js:32-40 | There are no errors exactly when the email is valid and a password is present (`null` counts as present). Each field is flagged iff its own check fails. Every entry is `{ param, value, msg }` (the validator's `location` is dropped) for email or password, with the value sent and that check's message, email before password. |
| Auth.LoginAsWritten | routes/api/auth.js:30-78 | The route as written. The store never changes. Invalid input gives 400 with the errors array, and an unknown email gives "Invalid credentials". A known email with a non-string password gives 500 "Server error", because bcrypt's compare rejects it. Any other failure of valid input with a string password is that same "Invalid credentials" response. The answer is 200 iff the input is valid, the password is a string and the first user with the email accepts it; the token then names that user's id, with `expiresIn` 360000. |
| Auth.NullPasswordRevealsRegisteredEmail | routes/api/auth.js:46-54 | With a valid email and a `null` password, the route as written answers 400 "Invalid credentials" when the email is unregistered and 500 when it is registered. The corrected handler answers "Invalid credentials" to both. |
| Auth.Login | routes/api/auth.js:30-78 | The corrected handler (see "## Findings"): a non-string password counts as a wrong password. The store never changes. Invalid input gives 400 with the errors array, and an unknown email gives "Invalid credentials". The answer is 200 iff the input is valid, the password is a string and the first user with the email accepts it. Any other answer to valid input is that same "Invalid credentials" response. On success the token names the first user with that email, whose hash accepts the password, with `expiresIn` 360000. |
| Auth.LoginAgreesOnStringPasswords | routes/api/auth.js:54 | For a password sent as a string, the route as written and the corrected handler give the same outcome. |
| Auth.LoginHidesWhichCheckFailed | routes/api/auth.js:46-60 | For the corrected handler, an unknown email and a wrong password for a known email get identical responses, whatever JSON value the password is. |
| Auth.LoginAsWrittenHidesForStringPasswords | routes/api/auth.js:46-60 | For the route as written, an unknown email and a wrong string password for a known email get identical responses. |
| Auth.LoginAfterRegister | routes/api/auth.js:54-72 | Assume bcrypt accepts a password against its own hash. Then after a successful registration with a string password, logging in with the same email and password answers 200 with a token naming the new id. |
| Auth.CurrentUser | routes/api/auth.js:17-25 | The store never changes and the answer is always 200. The body is `null` exactly when no user has the requester's id. Otherwise it is that user's record without the password field. |
| Auth.CurrentUserAfterRegister | routes/api/auth.js:19-20 | Right after registering with an unused id and a string password, the current-user route returns the stored name, email, avatar and date. |
| Posts.CommentById | routes/api/posts.js:211 | The result is the first comment with the id. It is none exactly when no comment has that id. |
| Posts.CreatePost | routes/api/posts.js:14-47 | Empty text gives 400 "Text is require" and no store change. A missing requester record gives 500. The answer is 200 iff the text is non-empty and the requester exists. Then one post is appended, owned by the requester, with the requester's name and avatar and no likes or comments. Users and older posts are unchanged. |
| Posts.SortNewestFirst | routes/api/posts.js:54 | The result is a permutation of the posts, ordered by date, newest first. |
| Posts.ListPosts | routes/api/posts.js:52-60 | The answer is 200 with every stored post, each with its multiplicity, newest first. The store does not change. |
| Posts.GetPost | routes/api/posts.js:65-81 | The answer is 404 "Post not found" iff no post has the id. Otherwise it is 200 with a stored post that has that id. The store does not change. |
| Posts.DeletePost | routes/api/posts.js:86-106 | A missing post gives 404. A requester who is not the owner gets 401 "User not authorized" and no store change. The owner's delete removes exactly that post, keeps the other posts in order and answers "Post deleted". |
| Posts.LikePost | routes/api/posts.js:111-128 | A missing post gives 500. An existing like by the requester gives 400 "Post already liked" and no store change. Otherwise only that post's likes change: the requester's like is prepended, the old list is the tail and the length grows by one. The answer is the new list. |
| Posts.UnlikePost | routes/api/posts.js:133-154 | A missing post gives 500. No like by the requester gives 400 and no store change. Otherwise only that post's likes change: every like of the requester is gone, and every other like keeps its multiplicity and relative order. The answer is the new list. |
| Posts.AddComment | routes/api/posts.js:159-201 | Empty text gives 400 "Text is required" and no store change. A missing requester or post gives 500. The answer is 200 iff the text is non-empty and both exist. Then only that post's comments change: a comment by the requester, with their name and avatar, is prepended to the old list. |
| Posts.DeleteComment | routes/api/posts.js:206-232 | A missing post gives 500, and a missing comment id gives 404 "Comment does not exist". If the first comment with that id is not the requester's, the answer is 400 "User not authorized" and the store is unchanged. Otherwise only that post's comments change: every comment with the id is gone, the list is shorter, and the others keep their multiplicity and order. |
| PostLaws.LikeKeepsLikersUnique | routes/api/posts.js:116-120 | Liking keeps at most one like per user on every post. |
| PostLaws.UnlikeKeepsLikersUnique | routes/api/posts.js:145-146 | Unliking keeps at most one like per user on every post. |
| PostLaws.LikeThenUnlike | routes/api/posts.js:120-146 | If the requester did not like the post, a like followed by an unlike gives back the original store. The unlike answers with the original likes. |
| PostLaws.LikeTwice | routes/api/posts.js:116-118 | A second like of the same post by the same user is refused with "Post already liked" and changes nothing. |
| PostLaws.UnlikeThenLike | routes/api/posts.js:138-146 | After a successful unlike, the same user can like the post again. |
| PostLaws.AddThenDeleteComment | routes/api/posts.js:191-224 | The author comments under an unused comment id and then deletes that comment. This gives back the original store and answers with the original comments. |
| PostLaws.CreateThenDelete | routes/api/posts.js:90-101 | Take a freshly created post. A get finds it. A delete by anyone but its author gets 401 and changes nothing. The author's delete gives back the store from before the post, and a later get gives 404. |

## Findings

| source | as written | input that shows it | evidently intended | confidence | as-written member | corrected member |
|---|---|---|---|---|---|---|
| routes/api/auth.js:32-54 | `exists()` lets a `null` password through, and `bcrypt.compare` rejects a non-string, so the catch answers 500 "Server error" for a registered email while an unregistered one gets 400 "Invalid credentials" | `{"email":"alice@x.com","password":null}` with alice@x.com registered (500) and not registered (400) | every failure of the credentials gets the one "Invalid credentials" answer, so the answer does not reveal which emails are registered | medium, not executed | Auth.LoginAsWritten, Auth.NullPasswordRevealsRegisteredEmail | Auth.Login, Auth.LoginHidesWhichCheckFailed |

## Left out

- The authentication middleware is not part of this model: it reads the token header, checks the signature and expiry, and attaches the requester's id. The requester's id is a parameter of every route that needs one, so token expiry and tamper rejection are not modelled.
- A token is its claims and its lifetime. The signature with the server's secret, the issue time and the failure of `jwt.sign` (thrown from its callback) are not modelled.
- bcrypt, `isEmail` and gravatar are parameters with no properties beyond `CompareAcceptsHash`. So the model cannot state that a password fails against another password's hash.
- Users.Register: states that the stored password is `hash(password, salt)`, not that it differs from the raw password. That would need a property of bcrypt the model does not assume.
- The 500 answers for storage and driver failures are not modelled. Neither is the catch-all console logging.
- In `GET /api/posts/:postId`, a malformed id makes the driver throw and the handler answer 404. This is not modelled: every id is a well-formed string.
- Mongoose gives each like subdocument its own `_id`. A like here records only its user.
- Posts.SortNewestFirst: states the order by date and that the result is a permutation. It does not state the order among posts with equal dates, which the database leaves open.
- Concurrency is not modelled. Requests run one after another, so the race between two registrations of one email (check, then insert) cannot arise here.
- The client code (action creators, Redux reducers, React components) is not modelled: it holds no decision logic of its own.
- The routes validate with express-validator's `check()`, which looks for a field in the body, cookies, headers, route parameters and query string, while the handlers read only the body. Only body fields are modelled. So a field the validator finds elsewhere is not modelled: for example, a `password` header on a login with no password in the body passes `exists()` and then makes `bcrypt.compare` reject. Each validation error here is `{ param, value, msg }`; the `location` field that express-validator adds is dropped.
- JSON numbers are integers here; fractions and exponents, and their string forms, are not modelled.
- An object or array in a body field is represented by the string its validator sees. Express-validator checking each element of an array, Mongoose failing to cast an object to a string on save, and an object used as a query operator in `findOne({ email })` are not modelled.
- A name, email or text sent as a number or boolean is stored as its string form, as Mongoose casts it.
- Express-validator's `isLength` counts characters. Here a character is one element of a Dafny string, so there is no surrogate-pair or normalisation handling.
