/**
 The user directory behind the `/api/users` and `/api/login` routes of
 src/index.js, as a state machine over the `usuarios` table.

 The table is a map from the auto-increment id to the stored row, with the
 counter that supplies the next id. Each route is a pure function from the
 state and the request fields to an `Outcome` (the HTTP response) and, for
 the routes that write, the next state. Responses carry a `View`, which has
 no password hash field at all.
 */
module Accounts {
  import opened Text
  import opened Credentials

  /** One row of `usuarios` (createdAt is not modelled). */
  datatype Account = Account(name: string, email: string, passwordHash: PasswordHash, role: string)

  /** What a response may show of a row: everything except the password hash. */
  datatype View = View(id: nat, name: string, email: string, role: string)

  /** The `usuarios` table and its AUTO_INCREMENT counter. */
  datatype State = State(table: map<nat, Account>, nextId: nat)

  datatype Option<T> = None | Some(value: T)

  /**
   A route's response: a success with its body, or one of the four errors
   (400, 409, 404, 401) with the message the route sends.
   */
  datatype Outcome<T> =
    | Ok(value: T)
    | Validation(message: string)
    | Conflict(message: string)
    | NotFound(message: string)
    | Unauthorized(message: string)

  /** A writing route's response together with the table after it. */
  datatype Step<T> = Step(result: Outcome<T>, next: State)

  const MissingFields := "Nome, email e senha s\U{e3}o obrigat\U{f3}rios."
  const EmailTaken := "Email j\U{e1} cadastrado."
  const UserNotFound := "Usu\U{e1}rio n\U{e3}o encontrado."
  const BadCredentials := "Email ou senha inv\U{e1}lidos."
  const DefaultRole := "user"

  /**
   The HTTP status a response is sent with; `created` marks the success of a
   create, which answers 201 where every other route answers 200.
   */
  function Status<T>(o: Outcome<T>, created: bool): (code: int)
    ensures o.Ok? ==> (code == 201 <==> created) && (code == 200 <==> !created)
    ensures !o.Ok? ==> 400 <= code < 500
    ensures o.Validation? <==> code == 400
    ensures o.Conflict? <==> code == 409
    ensures o.NotFound? <==> code == 404
    ensures o.Unauthorized? <==> code == 401
  {
    match o
    case Ok(_) => if created then 201 else 200
    case Validation(_) => 400
    case Conflict(_) => 409
    case NotFound(_) => 404
    case Unauthorized(_) => 401
  }

  /** The empty table; AUTO_INCREMENT hands out 1 first. */
  const Empty := State(map[], 1)

  /** The counter is ahead of every id in use, so the next insert gets a fresh id. */
  ghost predicate Valid(s: State)
  {
    forall id :: id in s.table ==> id < s.nextId
  }

  /** Some stored row has exactly this email. */
  ghost predicate EmailInUse(t: map<nat, Account>, email: string)
  {
    exists id :: id in t && t[id].email == email
  }

  /** The public projection of a row (`SELECT id, name, email, role`). */
  function Project(id: nat, a: Account): View
  {
    View(id, a.name, a.email, a.role)
  }

  /** The role a create stores: the given one, or "user" only when none is given. */
  function RoleOrDefault(role: Field): string
  {
    match role
    case Absent => DefaultRole
    case Given(r) => r
  }

  /**
   `SELECT * FROM usuarios WHERE email = ?` followed by `rows[0]`: scans the
   ids in [lo, hi) in ascending order and returns the first one whose row has
   this email.
   */
  function FindByEmail(t: map<nat, Account>, email: string, lo: nat, hi: nat): (r: Option<nat>)
    ensures r.Some? ==> lo <= r.value < hi && r.value in t && t[r.value].email == email
    ensures r.Some? ==> forall id :: lo <= id < r.value && id in t ==> t[id].email != email
    ensures r.None? ==> forall id :: lo <= id < hi && id in t ==> t[id].email != email
    decreases hi - lo
  {
    if lo >= hi then None
    else if lo in t && t[lo].email == email then Some(lo)
    else FindByEmail(t, email, lo + 1, hi)
  }

  /** The row a query by email returns first, over the whole table. */
  function Lookup(s: State, email: string): (r: Option<nat>)
    requires Valid(s)
    ensures r.Some? ==> r.value in s.table && s.table[r.value].email == email
    ensures r.None? <==> !EmailInUse(s.table, email)
  {
    FindByEmail(s.table, email, 0, s.nextId)
  }

  /**
   POST /api/users. Requires name, email and password; stores the email lower
   case, refuses an email already stored, hashes the password with `salt`,
   and inserts the row under the next auto-increment id.
   */
  function Create(s: State, name: Field, email: Field, password: Field, role: Field, salt: string): (st: Step<View>)
    requires Valid(s)
    ensures Valid(st.next)
    ensures st.result.Ok? <==>
              Truthy(name) && Truthy(email) && Truthy(password) && !EmailInUse(s.table, Lower(email.text))
    ensures !st.result.Ok? ==> st.next == s
    ensures !(Truthy(name) && Truthy(email) && Truthy(password)) ==> st.result == Validation(MissingFields)
    ensures Truthy(name) && Truthy(email) && Truthy(password) && EmailInUse(s.table, Lower(email.text)) ==>
              st.result == Conflict(EmailTaken)
    ensures st.result.Ok? ==>
              var id := st.result.value.id;
              && id !in s.table
              && st.next.table.Keys == s.table.Keys + {id}
              && (forall k :: k in s.table ==> st.next.table[k] == s.table[k])
              && st.next.table[id].name == name.text
              && st.next.table[id].email == Lower(email.text)
              && st.next.table[id].role == (if role.Absent? then DefaultRole else role.text)
              && st.next.table[id].passwordHash == Hash(password.text, salt)
              && st.result.value == Project(id, st.next.table[id])
  {
    if !(Truthy(name) && Truthy(email) && Truthy(password)) then
      Step(Validation(MissingFields), s)
    else
      var emailLower := Lower(email.text);
      if Lookup(s, emailLower).Some? then
        Step(Conflict(EmailTaken), s)
      else
        var id := s.nextId;
        var row := Account(name.text, emailLower, Hash(password.text, salt), RoleOrDefault(role));
        Step(Ok(Project(id, row)), State(s.table[id := row], id + 1))
  }

  /** The public rows with ids in [lo, hi), in ascending id order. */
  function ListRange(t: map<nat, Account>, lo: nat, hi: nat): (r: seq<View>)
    ensures forall j :: 0 <= j < |r| ==> lo <= r[j].id < hi && r[j].id in t && r[j] == Project(r[j].id, t[r[j].id])
    ensures forall id :: lo <= id < hi && id in t ==> Project(id, t[id]) in r
    ensures forall j, k :: 0 <= j < k < |r| ==> r[j].id < r[k].id
    decreases hi - lo
  {
    if lo >= hi then []
    else if lo in t then [Project(lo, t[lo])] + ListRange(t, lo + 1, hi)
    else ListRange(t, lo + 1, hi)
  }

  /**
   GET /api/users: every row, projected to its public fields, each once. The
   query has no ORDER BY; the model fixes the primary-key order.
   */
  function List(s: State): (r: seq<View>)
    requires Valid(s)
    ensures forall j :: 0 <= j < |r| ==> r[j].id in s.table && r[j] == Project(r[j].id, s.table[r[j].id])
    ensures forall id :: id in s.table ==> Project(id, s.table[id]) in r
    ensures forall j, k :: 0 <= j < k < |r| ==> r[j].id != r[k].id
  {
    ListRange(s.table, 0, s.nextId)
  }

  /** GET /api/users/:id: the public fields of the row, or 404. */
  function Get(s: State, id: nat): (r: Outcome<View>)
    ensures r.Ok? <==> id in s.table
    ensures r.Ok? ==> r.value.id == id && r.value == Project(id, s.table[id])
    ensures !r.Ok? ==> r == NotFound(UserNotFound)
  {
    if id in s.table then Ok(Project(id, s.table[id])) else NotFound(UserNotFound)
  }

  /**
   PUT /api/users/:id. Each supplied (truthy) field replaces the stored one,
   the email lower-cased and the password re-hashed with `salt`; every other
   field keeps its old value. No uniqueness check is made on the new email.
   */
  function Update(s: State, id: nat, name: Field, email: Field, password: Field, role: Field, salt: string): (st: Step<View>)
    ensures st.result.Ok? <==> id in s.table
    ensures !st.result.Ok? ==> st.result == NotFound(UserNotFound) && st.next == s
    ensures st.next.nextId == s.nextId && st.next.table.Keys == s.table.Keys
    ensures forall k :: k in s.table && k != id ==> st.next.table[k] == s.table[k]
    ensures id in s.table ==>
              var before := s.table[id];
              var after := st.next.table[id];
              && after.name == (if Truthy(name) then name.text else before.name)
              && after.email == (if Truthy(email) then Lower(email.text) else before.email)
              && after.role == (if Truthy(role) then role.text else before.role)
              && (Truthy(password) ==> after.passwordHash == Hash(password.text, salt))
              && (!Truthy(password) ==> after.passwordHash == before.passwordHash)
              && st.result == Ok(Project(id, after))
  {
    if id !in s.table then
      Step(NotFound(UserNotFound), s)
    else
      var row := s.table[id];
      var updated := Account(
        if Truthy(name) then name.text else row.name,
        if Truthy(email) then Lower(email.text) else row.email,
        if Truthy(password) then Hash(password.text, salt) else row.passwordHash,
        if Truthy(role) then role.text else row.role);
      Step(Ok(Project(id, updated)), State(s.table[id := updated], s.nextId))
  }

  /** DELETE /api/users/:id: removes the row and answers with its id, or 404. */
  function Delete(s: State, id: nat): (st: Step<nat>)
    ensures st.result.Ok? <==> id in s.table
    ensures !st.result.Ok? ==> st.result == NotFound(UserNotFound) && st.next == s
    ensures st.result.Ok? ==> st.result.value == id
    ensures id !in st.next.table
    ensures st.next.table.Keys == s.table.Keys - {id}
    ensures forall k :: k in st.next.table ==> st.next.table[k] == s.table[k]
    ensures st.next.nextId == s.nextId
  {
    if id !in s.table then Step(NotFound(UserNotFound), s)
    else Step(Ok(id), State(s.table - {id}, s.nextId))
  }

  /**
   POST /api/login: looks the lower-cased email up, verifies the password
   against the first row found, and answers with that row minus its hash.
   An unknown email and a wrong password get the same 401.
   */
  function Login(s: State, email: string, password: string): (r: Outcome<View>)
    requires Valid(s)
    ensures r.Ok? ==>
              && r.value.id in s.table
              && s.table[r.value.id].email == Lower(email)
              && Verify(password, s.table[r.value.id].passwordHash)
              && r.value == Project(r.value.id, s.table[r.value.id])
    ensures !EmailInUse(s.table, Lower(email)) ==> r == Unauthorized(BadCredentials)
    ensures !r.Ok? ==> r == Unauthorized(BadCredentials)
  {
    match Lookup(s, Lower(email))
    case None => Unauthorized(BadCredentials)
    case Some(id) =>
      if Verify(password, s.table[id].passwordHash) then Ok(Project(id, s.table[id]))
      else Unauthorized(BadCredentials)
  }
}
