/**
 Properties of the user directory that relate several routes: the email
 invariant and which routes keep it, round trips through create, get, login
 and delete, and a worked example.
 */
module AccountProperties {
  import opened Text
  import opened Credentials
  import opened Accounts

  /** Every stored email is lower case. */
  ghost predicate EmailsNormalized(t: map<nat, Account>)
  {
    forall id :: id in t ==> IsLower(t[id].email)
  }

  /** No two rows share an email. */
  ghost predicate EmailsDistinct(t: map<nat, Account>)
  {
    forall a, b :: a in t && b in t && a != b ==> t[a].email != t[b].email
  }

  /** The directory invariant: a consistent counter and one row per lower-case email. */
  ghost predicate Invariant(s: State)
  {
    Valid(s) && EmailsNormalized(s.table) && EmailsDistinct(s.table)
  }

  lemma EmptySatisfiesInvariant()
    ensures Invariant(Empty)
  {
  }

  /** A create, successful or not, keeps the invariant. */
  lemma CreatePreservesInvariant(s: State, name: Field, email: Field, password: Field, role: Field, salt: string)
    requires Invariant(s)
    ensures Invariant(Create(s, name, email, password, role, salt).next)
  {
    var st := Create(s, name, email, password, role, salt);
    if st.result.Ok? {
      var id := st.result.value.id;
      var t := st.next.table;
      forall a, b | a in t && b in t && a != b
        ensures t[a].email != t[b].email
      {
        if a == id {
          assert !EmailInUse(s.table, t[id].email);
          assert b in s.table;
        } else if b == id {
          assert !EmailInUse(s.table, t[id].email);
          assert a in s.table;
        }
      }
    }
  }

  /** A delete keeps the invariant. */
  lemma DeletePreservesInvariant(s: State, id: nat)
    requires Invariant(s)
    ensures Invariant(Delete(s, id).next)
  {
  }

  /** An update keeps the counter consistent and every stored email lower case. */
  lemma UpdatePreservesNormalized(s: State, id: nat, name: Field, email: Field, password: Field, role: Field, salt: string)
    requires Valid(s) && EmailsNormalized(s.table)
    ensures var next := Update(s, id, name, email, password, role, salt).next;
            Valid(next) && EmailsNormalized(next.table)
  {
  }

  /**
   An update does NOT keep emails distinct: in any table satisfying the
   invariant, giving row `b` the email of another row `a` (spelt in any case)
   is accepted, and afterwards two rows share that email.
   */
  lemma UpdateCanDuplicateEmail(s: State, a: nat, b: nat, newEmail: string, salt: string)
    requires Invariant(s)
    requires a in s.table && b in s.table && a != b
    requires newEmail != "" && Lower(newEmail) == s.table[a].email
    ensures var st := Update(s, b, Absent, Given(newEmail), Absent, Absent, salt);
            && st.result.Ok?
            && st.next.table[a].email == st.next.table[b].email
            && !EmailsDistinct(st.next.table)
  {
  }

  /**
   While emails are distinct, login succeeds exactly when some row has the
   lower-cased email and its hash verifies the password.
   */
  lemma LoginSucceedsIff(s: State, email: string, password: string)
    requires Valid(s) && EmailsDistinct(s.table)
    ensures Login(s, email, password).Ok? <==>
              exists id :: id in s.table && s.table[id].email == Lower(email)
                           && Verify(password, s.table[id].passwordHash)
  {
    var e := Lower(email);
    if id :| id in s.table && s.table[id].email == e && Verify(password, s.table[id].passwordHash) {
      var found := Lookup(s, e);
      assert found.Some?;
      assert found.value == id;
    }
  }

  /**
   Once an update has left two rows with the same email, login only checks
   the password against the first of them (the lower id): the password of
   the other row is refused with 401 even though its own hash verifies it.
   */
  lemma LoginChecksFirstMatchOnly(s: State, a: nat, b: nat, email: string, password: string)
    requires Valid(s)
    requires a in s.table && b in s.table && a < b
    requires s.table[a].email == Lower(email) && s.table[b].email == Lower(email)
    requires forall id :: id in s.table && id < a ==> s.table[id].email != Lower(email)
    requires Verify(password, s.table[b].passwordHash) && !Verify(password, s.table[a].passwordHash)
    ensures Login(s, email, password) == Unauthorized(BadCredentials)
  {
    var found := Lookup(s, Lower(email));
    assert found.Some?;
    assert found.value == a;
  }

  /** An unknown email and a wrong password are answered identically. */
  lemma LoginFailuresIdentical(s: State, email1: string, email2: string, password: string)
    requires Valid(s)
    requires !EmailInUse(s.table, Lower(email1))
    requires EmailInUse(s.table, Lower(email2))
    requires forall id :: id in s.table && s.table[id].email == Lower(email2) ==>
               !Verify(password, s.table[id].passwordHash)
    ensures Login(s, email1, password) == Login(s, email2, password) == Unauthorized(BadCredentials)
  {
  }

  /** A created user can be fetched by the id the create answered with. */
  lemma CreateThenGet(s: State, name: Field, email: Field, password: Field, role: Field, salt: string)
    requires Valid(s)
    requires Create(s, name, email, password, role, salt).result.Ok?
    ensures var st := Create(s, name, email, password, role, salt);
            var g := Get(st.next, st.result.value.id);
            && g.Ok?
            && g.value == st.result.value
            && g.value.name == name.text
            && g.value.email == Lower(email.text)
  {
  }

  /** A created user appears in the listing. */
  lemma CreateThenList(s: State, name: Field, email: Field, password: Field, role: Field, salt: string)
    requires Valid(s)
    requires Create(s, name, email, password, role, salt).result.Ok?
    ensures var st := Create(s, name, email, password, role, salt);
            st.result.value in List(st.next)
  {
  }

  /**
   A created user can log in with the same password and any spelling of the
   email that lower-cases to the same string, and gets its own id back.
   */
  lemma CreateThenLogin(s: State, name: Field, email: Field, password: Field, role: Field, salt: string, loginEmail: string)
    requires Valid(s)
    requires Create(s, name, email, password, role, salt).result.Ok?
    requires Lower(loginEmail) == Lower(email.text)
    ensures var st := Create(s, name, email, password, role, salt);
            var r := Login(st.next, loginEmail, password.text);
            r.Ok? && r == Ok(st.result.value)
  {
    var st := Create(s, name, email, password, role, salt);
    var id := st.result.value.id;
    var found := Lookup(st.next, Lower(loginEmail));
    assert found.Some?;
    assert found.value == id;
  }

  /**
   Once a user is created, a second create with an email that differs only in
   case is refused with 409 and changes nothing.
   */
  lemma CreateTwiceConflicts(s: State, name: Field, email: Field, password: Field, role: Field, salt: string,
                             name2: Field, email2: Field, password2: Field, role2: Field, salt2: string)
    requires Valid(s)
    requires Create(s, name, email, password, role, salt).result.Ok?
    requires Truthy(name2) && Truthy(email2) && Truthy(password2)
    requires Lower(email2.text) == Lower(email.text)
    ensures var s1 := Create(s, name, email, password, role, salt).next;
            var st := Create(s1, name2, email2, password2, role2, salt2);
            st.result == Conflict(EmailTaken) && st.next == s1
  {
    var st1 := Create(s, name, email, password, role, salt);
    assert st1.next.table[st1.result.value.id].email == Lower(email2.text);
  }

  /** After a delete, the id is gone: get answers 404. */
  lemma DeleteThenGet(s: State, id: nat)
    requires id in s.table
    ensures var st := Delete(s, id);
            st.result == Ok(id) && Get(st.next, id) == NotFound(UserNotFound)
  {
  }

  /** A deleted id is never handed out again by a later create. */
  lemma DeletedIdNotReused(s: State, id: nat, name: Field, email: Field, password: Field, role: Field, salt: string)
    requires Valid(s) && id in s.table
    ensures var st := Create(Delete(s, id).next, name, email, password, role, salt);
            st.result.Ok? ==> st.result.value.id != id
  {
  }

  /** The first create on the empty table gets id 1 and is the only row afterwards. */
  lemma CreateOnEmpty(name: string, email: string, password: string, salt: string)
    requires name != "" && email != "" && password != ""
    ensures var st := Create(Empty, Given(name), Given(email), Given(password), Absent, salt);
            && st.result == Ok(View(1, name, Lower(email), DefaultRole))
            && st.next == State(map[1 := Account(name, Lower(email), Hash(password, salt), DefaultRole)], 2)
  {
  }

  /* The spellings of the scenario's email all lower-case to "ana@x.com". */

  lemma ScenarioMixedCase()
    ensures Lower("Ana@X.com") == "ana@x.com"
  {
  }

  lemma ScenarioUpperCase()
    ensures Lower("ANA@X.COM") == "ana@x.com"
  {
  }

  lemma ScenarioLowerCase()
    ensures Lower("ana@x.com") == "ana@x.com"
  {
    LowerKeepsLower("ana@x.com");
  }

  /**
   A worked example: "Ana@X.com" is stored as "ana@x.com"; a second
   create with "ANA@X.COM" is refused; logging in with the right password
   answers with the new id; a password the stored hash does not verify gets 401.
   */
  lemma Scenario(salt: string, salt2: string)
    requires !Verify("wrong", Hash("secret1", salt))
    ensures var st1 := Create(Empty, Given("Ana"), Given("Ana@X.com"), Given("secret1"), Absent, salt);
            var st2 := Create(st1.next, Given("Ana"), Given("ANA@X.COM"), Given("secret1"), Absent, salt2);
            && st1.result == Ok(View(1, "Ana", "ana@x.com", "user"))
            && st2.result == Conflict(EmailTaken)
            && Login(st2.next, "ana@x.com", "secret1") == Ok(View(1, "Ana", "ana@x.com", "user"))
            && Login(st2.next, "ana@x.com", "wrong") == Unauthorized(BadCredentials)
  {
    CreateOnEmpty("Ana", "Ana@X.com", "secret1", salt);
    ScenarioMixedCase();
    ScenarioUpperCase();
    ScenarioLowerCase();
    var s1 := State(map[1 := Account("Ana", "ana@x.com", Hash("secret1", salt), "user")], 2);
    assert EmailInUse(s1.table, "ana@x.com") by {
      assert s1.table[1].email == "ana@x.com";
    }
    assert Lookup(s1, "ana@x.com") == Some(1);
  }
}
