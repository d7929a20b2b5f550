/** The account and credential rules of the API server: the user name derived
    from an email address, the login decision, user creation with a temporary
    password, the credential change that follows it, the life of a password
    reset code (issued, found unused, checked against its expiry, marked used),
    enabling and disabling a user, and deleting one.

    The two tables are sequences in insertion order, and a `.first()` query is
    taken to be the first matching row. SQL fixes no order for such a query;
    `LoginIgnoresOrder` shows that, with unique names, the log-in does not
    depend on it. A password is stored as itself: the hash is taken
    to be ideal, so `check_password` is equality. The clock and the mail
    server are parameters: `now` is the current UTC time in seconds, and
    `mailError` is the message of the exception sending raised, if any. */
module Accounts {
  import opened Wrappers
  import opened Numerals

  // ---------------------------------------------------------------- strings

  predicate NotAt(c: char) { c != '@' }

  /** `email.split('@')[0]`: everything before the first `@`. */
  function LocalPart(email: string): (l: string)
    ensures |l| <= |email| && l == email[..|l|]
    ensures '@' !in l
    ensures |l| < |email| ==> email[|l|] == '@'
  {
    var k := PrefixLen(email, NotAt);
    assert forall i :: 0 <= i < k ==> email[..k][i] != '@';
    email[..k]
  }

  /** A text without `@` is its own local part, and so is the text before
      the first `@` of a longer address. */
  lemma LocalPartOfAddress(local: string, rest: string)
    requires '@' !in local
    requires rest == [] || rest[0] == '@'
    ensures LocalPart(local + rest) == local
  {
    var s := local + rest;
    assert forall i :: 0 <= i < |local| ==> s[i] == local[i];
    assert |local| < |s| ==> s[|local|] == '@';
    assert PrefixLen(s, NotAt) == |local|;
    assert s[..|local|] == local;
  }

  /** `s.replace(c, '')`. */
  function Without(s: string, c: char): (r: string)
    ensures c !in r
    ensures forall x :: x != c ==> (x in r <==> x in s)
    ensures |r| <= |s|
    ensures c !in s ==> r == s
  {
    if s == [] then []
    else
      assert s == [s[0]] + s[1..];
      if s[0] == c then Without(s[1..], c) else [s[0]] + Without(s[1..], c)
  }

  /** `replace` on a single character deletes it or keeps it. */
  lemma WithoutChar(x: char, c: char)
    ensures Without([x], c) == if x == c then [] else [x]
  {
    assert [x][1..] == [];
  }

  /** `replace` works on the two halves of a text independently, so it keeps
      every other character, in order and with its multiplicity. */
  lemma {:induction false} WithoutAppend(a: string, b: string, c: char)
    ensures Without(a + b, c) == Without(a, c) + Without(b, c)
  {
    if a == [] {
      assert a + b == b;
    } else {
      assert (a + b)[0] == a[0] && (a + b)[1..] == a[1..] + b;
      WithoutAppend(a[1..], b, c);
    }
  }

  /** The characters `generate_username` deletes from the local part. */
  const Removed := " _-."

  /** `generate_username(email)`. */
  function GenerateUsername(email: string): (u: string)
    ensures forall x :: x in u <==> x in LocalPart(email) && x !in Removed
    ensures '@' !in u && ' ' !in u && '_' !in u && '-' !in u && '.' !in u
    ensures |u| <= |email|
  {
    Clean(LocalPart(email))
  }

  /** The deletions of `generate_username` in its order. */
  function Clean(l: string): string {
    Without(Without(Without(Without(l, ' '), '_'), '-'), '.')
  }

  /** The deletions work on the two halves of a text independently. */
  lemma CleanAppend(a: string, b: string)
    ensures Clean(a + b) == Clean(a) + Clean(b)
  {
    WithoutAppend(a, b, ' ');
    WithoutAppend(Without(a, ' '), Without(b, ' '), '_');
    WithoutAppend(Without(Without(a, ' '), '_'), Without(Without(b, ' '), '_'), '-');
    WithoutAppend(Without(Without(Without(a, ' '), '_'), '-'), Without(Without(Without(b, ' '), '_'), '-'), '.');
  }

  /** The user name of two `@`-free halves before the first `@` is the user
      name of each half, concatenated: the local part is cleaned character by
      character, in order. */
  lemma UsernameAppend(a: string, b: string, domain: string)
    requires '@' !in a && '@' !in b
    ensures GenerateUsername(a + b + "@" + domain) == GenerateUsername(a) + GenerateUsername(b)
  {
    assert a + b + "@" + domain == (a + b) + ("@" + domain);
    LocalPartOfAddress(a + b, "@" + domain);
    assert a + [] == a && b + [] == b;
    LocalPartOfAddress(a, []);
    LocalPartOfAddress(b, []);
    CleanAppend(a, b);
  }

  /** A one-character address yields that character, unless it is `@` or one
      of the deleted characters. */
  lemma UsernameChar(x: char)
    ensures GenerateUsername([x]) == if x == '@' || x in Removed then [] else [x]
  {
    if x == '@' {
      assert PrefixLen([x], NotAt) == 0;
      assert LocalPart([x]) == [];
    } else {
      assert [x] + [] == [x];
      LocalPartOfAddress([x], []);
      WithoutChar(x, ' ');
      WithoutChar(x, '_');
      WithoutChar(x, '-');
      WithoutChar(x, '.');
    }
  }

  /** An address whose local part is already clean yields exactly that local part. */
  lemma UsernameOfCleanAddress(local: string, domain: string)
    requires '@' !in local && forall x :: x in Removed ==> x !in local
    ensures GenerateUsername(local + "@" + domain) == local
  {
    assert local + "@" + domain == local + ("@" + domain);
    LocalPartOfAddress(local, "@" + domain);
    assert ' ' in Removed && '_' in Removed && '-' in Removed && '.' in Removed;
  }

  /** A generated user name is its own user name. */
  lemma GenerateUsernameIdempotent(email: string)
    ensures GenerateUsername(GenerateUsername(email)) == GenerateUsername(email)
  {
    var u := GenerateUsername(email);
    assert u + "" == u;
    LocalPartOfAddress(u, "");
  }

  /** `email.strip().lower()`, as the server stores and looks up addresses. */
  function NormalizeEmail(e: string): (n: string)
    ensures |n| <= |e|
    ensures n != [] ==> !IsSpace(n[0]) && !IsSpace(n[|n| - 1])
  {
    var t := Strip(e, IsSpace);
    LowerAt(t);
    assert t != [] ==> LowerChar(t[0]) == Lower(t)[0] && LowerChar(t[|t| - 1]) == Lower(t)[|t| - 1];
    Lower(t)
  }

  /** `lower(trim(email))` as the database computes it for a stored address. */
  function SqlNormalize(e: string): (n: string)
    ensures |n| <= |e|
    ensures n != [] ==> n[0] != ' ' && n[|n| - 1] != ' '
  {
    var t := Strip(e, IsBlank);
    LowerAt(t);
    Lower(t)
  }

  /** Lower-casing keeps whitespace and non-whitespace apart. */
  lemma LowerCharKeepsSpace(c: char)
    ensures IsSpace(LowerChar(c)) <==> IsSpace(c)
  {
  }

  /** A normalised address has no whitespace at either end and no upper-case letter. */
  lemma NormalizedShape(e: string)
    ensures var n := NormalizeEmail(e);
            (n != [] ==> !IsSpace(n[0]) && !IsSpace(n[|n| - 1]))
            && forall i :: 0 <= i < |n| ==> !IsUpper(n[i])
  {
    var t := Strip(e, IsSpace);
    var n := Lower(t);
    LowerAt(t);
    if n != [] {
      LowerCharKeepsSpace(t[0]);
      LowerCharKeepsSpace(t[|t| - 1]);
    }
  }

  /** Lower-casing text that has no upper-case letter changes nothing. */
  lemma LowerOfLower(n: string)
    requires forall i :: 0 <= i < |n| ==> !IsUpper(n[i])
    ensures Lower(n) == n
  {
    LowerAt(n);
  }

  /** Neither strip touches text with no whitespace at its ends. */
  lemma CleanEnds(n: string)
    requires n != [] ==> !IsSpace(n[0]) && !IsSpace(n[|n| - 1])
    ensures Strip(n, IsSpace) == n && Strip(n, IsBlank) == n
  {
    StripUnchanged(n, IsSpace);
    StripUnchanged(n, IsBlank);
  }

  /** Normalising an address twice is normalising it once. */
  lemma NormalizeEmailIdempotent(e: string)
    ensures NormalizeEmail(NormalizeEmail(e)) == NormalizeEmail(e)
  {
    NormalizedShape(e);
    CleanEnds(NormalizeEmail(e));
    LowerOfLower(NormalizeEmail(e));
  }

  /** A stored normalised address is found by the reset lookup with the same
      normalised address: the database's `lower(trim(…))` leaves it alone. */
  lemma SqlNormalizeOfNormalized(e: string)
    ensures SqlNormalize(NormalizeEmail(e)) == NormalizeEmail(e)
  {
    NormalizedShape(e);
    CleanEnds(NormalizeEmail(e));
    LowerOfLower(NormalizeEmail(e));
  }

  /** `generate_temp_password`: ten ASCII letters or digits. */
  predicate IsTempPassword(p: string) {
    |p| == 10 && forall i :: 0 <= i < |p| ==> IsDigit(p[i]) || 'a' <= p[i] <= 'z' || IsUpper(p[i])
  }

  /** The code `request_password_reset` draws: six decimal digits. */
  predicate IsResetCode(c: string) { |c| == 6 && AllDigits(c) }

  // ---------------------------------------------------------------- tables

  /** A row of the user table, with the role joined in by name. */
  datatype User = User(
    id: nat, nombre: string, email: string, rol: string,
    activo: bool, tempPassword: bool, password: string)

  /** A row of the verification-code table; `expiracion` is in seconds. */
  datatype Code = Code(usuarioId: nat, codigo: string, expiracion: int, usado: bool)

  /** The position of the first element satisfying `p`. */
  function FirstIndex<T>(s: seq<T>, p: T -> bool): (r: Option<nat>)
    ensures r.Some? ==> r.value < |s| && p(s[r.value]) && forall j :: 0 <= j < r.value ==> !p(s[j])
    ensures r.None? ==> forall j :: 0 <= j < |s| ==> !p(s[j])
  {
    if s == [] then None
    else if p(s[0]) then Some(0)
    else
      match FirstIndex(s[1..], p)
      case None => None
      case Some(i) => Some(i + 1)
  }

  /** The first match is the same in two sequences that agree on `p` everywhere. */
  lemma FirstIndexAgrees<T>(s: seq<T>, t: seq<T>, p: T -> bool)
    requires |s| == |t| && forall i :: 0 <= i < |s| ==> p(s[i]) == p(t[i])
    ensures FirstIndex(s, p) == FirstIndex(t, p)
  {
  }

  /** `User.query.filter_by(nombre=name).first()`. */
  function ByName(users: seq<User>, name: string): (r: Option<nat>)
    ensures r.Some? ==> r.value < |users| && users[r.value].nombre == name
    ensures r.Some? ==> forall j :: 0 <= j < r.value ==> users[j].nombre != name
    ensures r.None? ==> forall j :: 0 <= j < |users| ==> users[j].nombre != name
  {
    FirstIndex(users, (u: User) => u.nombre == name)
  }

  /** `User.query.get(id)`. */
  function ById(users: seq<User>, id: nat): (r: Option<nat>)
    ensures r.Some? ==> r.value < |users| && users[r.value].id == id
    ensures r.Some? ==> forall j :: 0 <= j < r.value ==> users[j].id != id
    ensures r.None? ==> forall j :: 0 <= j < |users| ==> users[j].id != id
  {
    FirstIndex(users, (u: User) => u.id == id)
  }

  /** The reset lookup's condition `lower(trim(User.email)) == email` on one row. */
  predicate EmailIs(u: User, email: string) {
    SqlNormalize(u.email) == email
  }

  /** `User.query.filter(lower(trim(User.email)) == email).first()`. Written
      out rather than through `FirstIndex`, so that the database's
      normalisation of a row is only considered for the rows a proof names. */
  function ByEmail(users: seq<User>, email: string): (r: Option<nat>)
    ensures r.Some? ==> r.value < |users| && EmailIs(users[r.value], email)
    ensures r.Some? ==> forall j {:trigger EmailIs(users[j], email)} :: 0 <= j < r.value ==> !EmailIs(users[j], email)
    ensures r.None? ==> forall j {:trigger EmailIs(users[j], email)} :: 0 <= j < |users| ==> !EmailIs(users[j], email)
  {
    if users == [] then None
    else if EmailIs(users[0], email) then Some(0)
    else
      assert forall j :: 0 < j < |users| ==> users[j] == users[1..][j - 1];
      match ByEmail(users[1..], email)
      case None => None
      case Some(i) => Some(i + 1)
  }

  /** The reset lookup gives the same row in two tables whose addresses agree. */
  lemma {:induction false} ByEmailAgrees(a: seq<User>, b: seq<User>, email: string)
    requires |a| == |b| && forall i :: 0 <= i < |a| ==> a[i].email == b[i].email
    ensures ByEmail(a, email) == ByEmail(b, email)
  {
    if a != [] {
      assert EmailIs(a[0], email) == EmailIs(b[0], email);
      ByEmailAgrees(a[1..], b[1..], email);
    }
  }

  /** A code row the reset accepts for user `uid` and code `code`, before the expiry check. */
  predicate Usable(k: Code, uid: nat, code: string) {
    k.usuarioId == uid && k.codigo == code && !k.usado
  }

  /** `filter_by(usuario_id=uid, codigo=code, usado=False).first()`. */
  function UsableCode(codes: seq<Code>, uid: nat, code: string): (r: Option<nat>)
    ensures r.Some? ==> r.value < |codes| && Usable(codes[r.value], uid, code)
    ensures r.Some? ==> forall j :: 0 <= j < r.value ==> !Usable(codes[j], uid, code)
    ensures r.None? ==> forall j :: 0 <= j < |codes| ==> !Usable(codes[j], uid, code)
  {
    FirstIndex(codes, (k: Code) => Usable(k, uid, code))
  }

  /** How many rows the reset would still accept for `uid` and `code`. */
  function CountUsable(codes: seq<Code>, uid: nat, code: string): (n: nat)
    ensures n <= |codes|
  {
    if codes == [] then 0
    else (if Usable(codes[0], uid, code) then 1 else 0) + CountUsable(codes[1..], uid, code)
  }

  /** No row is accepted exactly when the count is zero. */
  lemma {:induction false} CountZeroIffNoneUsable(codes: seq<Code>, uid: nat, code: string)
    ensures CountUsable(codes, uid, code) == 0 <==> UsableCode(codes, uid, code).None?
  {
    if codes != [] {
      CountZeroIffNoneUsable(codes[1..], uid, code);
      if UsableCode(codes[1..], uid, code).None? && !Usable(codes[0], uid, code) {
        forall j | 0 <= j < |codes| ensures !Usable(codes[j], uid, code) {
          if j > 0 { assert codes[j] == codes[1..][j - 1]; }
        }
      }
      if UsableCode(codes, uid, code).None? {
        forall j | 0 <= j < |codes| - 1 ensures !Usable(codes[1..][j], uid, code) {
          assert codes[1..][j] == codes[j + 1];
        }
      }
    }
  }

  /** Marking an accepted row used lowers the count by exactly one. */
  lemma {:induction false} CountAfterUse(codes: seq<Code>, j: nat, uid: nat, code: string)
    requires j < |codes| && Usable(codes[j], uid, code)
    ensures CountUsable(codes[j := codes[j].(usado := true)], uid, code) == CountUsable(codes, uid, code) - 1
  {
    var c := codes[j := codes[j].(usado := true)];
    if j == 0 {
      assert c[1..] == codes[1..];
    } else {
      assert c[1..] == codes[1..][j - 1 := codes[j].(usado := true)];
      CountAfterUse(codes[1..], j - 1, uid, code);
    }
  }

  /** Appending a row adds one to the count if the row is accepted. */
  lemma {:induction false} CountAfterAppend(codes: seq<Code>, k: Code, uid: nat, code: string)
    ensures CountUsable(codes + [k], uid, code)
            == CountUsable(codes, uid, code) + (if Usable(k, uid, code) then 1 else 0)
  {
    if codes != [] {
      assert (codes + [k])[1..] == codes[1..] + [k];
      CountAfterAppend(codes[1..], k, uid, code);
    }
  }

  // ---------------------------------------------------------------- replies

  /** A JSON reply with its HTTP status: `Ok` is a 200 with `success: true`. */
  datatype Reply = Ok(message: string) | Fail(status: nat, message: string)

  /** The reply to `POST /api/login`. */
  datatype LoginReply = Accepted(user: string, role: string, changeRequired: bool) | Rejected(status: nat, message: string)

  /** The reply to `POST /api/users/<id>/toggle`. */
  datatype ToggleReply = Toggled(activo: bool) | ToggleFailed(status: nat, message: string)

  const NoSuchUser := "Usuario no existe o está deshabilitado"
  const InvalidCredentials := "Credenciales inválidas"
  const UserNotFound := "Usuario no encontrado"
  const ChangeDone := "Usuario y contraseña actualizados"
  const RoleInvalid := "Rol no válido"
  const CreatedAndSent := "Usuario creado y contraseña enviada"
  const CreatedNotSent := "Usuario creado pero no se pudo enviar el correo: "
  const NoSuchEmail := "No existe un usuario con ese email"
  const CodeSent := "Código enviado al correo"
  const CodeNotSent := "No se pudo enviar el correo: "
  const CodeInvalid := "Código inválido"
  const CodeExpired := "Código expirado"
  const ResetDone := "Contraseña restablecida correctamente"
  const UserDeleted := "Usuario eliminado"

  /** Ten minutes, the life of a reset code. */
  const CodeLifetime: int := 600

  // ---------------------------------------------------------------- handlers

  /** The login decision. */
  function Login(users: seq<User>, username: string, password: string): (r: LoginReply)
    ensures r.Accepted? <==>
      ByName(users, username).Some? && users[ByName(users, username).value].activo
      && users[ByName(users, username).value].password == password
    ensures r.Accepted? ==>
      var u := users[ByName(users, username).value];
      r == Accepted(username, u.rol, u.tempPassword)
    ensures ByName(users, username).None? || !users[ByName(users, username).value].activo
      ==> r == Rejected(401, NoSuchUser)
    ensures r.Rejected? && r.message != NoSuchUser ==> r == Rejected(401, InvalidCredentials)
    ensures ByName(users, username).Some? && users[ByName(users, username).value].activo
      && users[ByName(users, username).value].password != password
      ==> r == Rejected(401, InvalidCredentials)
  {
    match ByName(users, username)
    case None => Rejected(401, NoSuchUser)
    case Some(i) =>
      if !users[i].activo then Rejected(401, NoSuchUser)
      else if users[i].password == password then Accepted(username, users[i].rol, users[i].tempPassword)
      else Rejected(401, InvalidCredentials)
  }

  /** A successful login names an active user of that name whose password matches. */
  lemma LoginOnlyWithMatch(users: seq<User>, username: string, password: string)
    requires Login(users, username, password).Accepted?
    ensures exists i :: 0 <= i < |users| && users[i].nombre == username && users[i].activo
                        && users[i].password == password
  {
    var i := ByName(users, username).value;
    assert users[i].nombre == username;
  }

  /** An absent or disabled user is turned away the same way whatever the password. */
  lemma DisabledIgnoresPassword(users: seq<User>, username: string, p: string, q: string)
    requires ByName(users, username).None? || !users[ByName(users, username).value].activo
    ensures Login(users, username, p) == Login(users, username, q) == Rejected(401, NoSuchUser)
  {
  }

  /** The row `create_user` inserts. */
  function NewUser(id: nat, email: string, role: string, tempPassword: string): (u: User)
    ensures u.id == id && u.rol == role && u.password == tempPassword
    ensures u.activo && u.tempPassword
    ensures u.nombre == GenerateUsername(email) && u.email == NormalizeEmail(email)
  {
    User(id, GenerateUsername(email), NormalizeEmail(email), role, true, true, tempPassword)
  }

  /** A newly created user logs in with the temporary password and is told to
      change it, provided no earlier user has the same name. */
  lemma LoginAfterCreate(users: seq<User>, id: nat, email: string, role: string, tempPassword: string)
    requires ByName(users, GenerateUsername(email)).None?
    ensures Login(users + [NewUser(id, email, role, tempPassword)], GenerateUsername(email), tempPassword)
            == Accepted(GenerateUsername(email), role, true)
  {
    var s := users + [NewUser(id, email, role, tempPassword)];
    assert s[|users|].nombre == GenerateUsername(email);
    assert forall j :: 0 <= j < |users| ==> s[j] == users[j];
  }

  /** The row `change_password` writes. */
  function Changed(u: User, newUsername: string, newPassword: string): (c: User)
    ensures c.nombre == newUsername && c.password == newPassword && !c.tempPassword
    ensures c.id == u.id && c.email == u.email && c.rol == u.rol && c.activo == u.activo
  {
    u.(nombre := newUsername, password := newPassword, tempPassword := false)
  }

  /** After the credential change an active user logs in with the new name and
      password, and no further change is required, provided no earlier user
      has the new name. */
  lemma LoginAfterChange(users: seq<User>, i: nat, newUsername: string, newPassword: string)
    requires i < |users| && users[i].activo
    requires forall j :: 0 <= j < i ==> users[j].nombre != newUsername
    ensures Login(users[i := Changed(users[i], newUsername, newPassword)], newUsername, newPassword)
            == Accepted(newUsername, users[i].rol, false)
  {
    var s := users[i := Changed(users[i], newUsername, newPassword)];
    assert s[i].nombre == newUsername;
    assert forall j :: 0 <= j < i ==> s[j] == users[j];
  }

  /** No two users share a name, as the table's unique constraint demands. */
  predicate UniqueNames(users: seq<User>) {
    forall i, j :: 0 <= i < j < |users| ==> users[i].nombre != users[j].nombre
  }

  /** With unique names the look-up by name finds the same row in any
      ordering of the table. */
  lemma ByNameSameRow(a: seq<User>, b: seq<User>, name: string)
    requires multiset(a) == multiset(b)
    requires UniqueNames(a)
    ensures ByName(a, name).Some? <==> ByName(b, name).Some?
    ensures ByName(a, name).Some? ==> a[ByName(a, name).value] == b[ByName(b, name).value]
  {
    if ByName(a, name).Some? {
      var i := ByName(a, name).value;
      assert a[i] in multiset(b);
      var m :| 0 <= m < |b| && b[m] == a[i];
      assert b[m].nombre == name;
    }
    if ByName(b, name).Some? {
      var k := ByName(b, name).value;
      assert b[k] in multiset(a);
      var m :| 0 <= m < |a| && a[m] == b[k];
      assert a[m].nombre == name;
    }
  }

  /** `.first()` without `order_by` may return rows in any order. When names
      are unique there is only one row to return, and the log-in decision is
      the same for every ordering of the table. */
  lemma LoginIgnoresOrder(a: seq<User>, b: seq<User>, username: string, password: string)
    requires multiset(a) == multiset(b)
    requires UniqueNames(a)
    ensures Login(a, username, password) == Login(b, username, password)
  {
    ByNameSameRow(a, b, username);
  }

  /** Which branch `reset_password` takes: no user with that address, no
      unused matching code, an expired code, or user row `i` and code row `j`. */
  datatype ResetStep = NoUser | NoCode | Expired | Use(i: nat, j: nat)

  /** The lookups and the expiry check of `reset_password`, in its order. */
  function ResetStepOf(users: seq<User>, codes: seq<Code>, email: string, code: string, now: int): (s: ResetStep)
    ensures s == NoUser <==> ByEmail(users, NormalizeEmail(email)).None?
    ensures s != NoUser ==> var i := ByEmail(users, NormalizeEmail(email)).value;
      (s == NoCode <==> UsableCode(codes, users[i].id, code).None?)
    ensures s.Use? ==>
      && ByEmail(users, NormalizeEmail(email)) == Some(s.i) && s.i < |users|
      && UsableCode(codes, users[s.i].id, code) == Some(s.j) && s.j < |codes|
      && Usable(codes[s.j], users[s.i].id, code) && codes[s.j].expiracion >= now
    ensures s == Expired ==>
      var i := ByEmail(users, NormalizeEmail(email)).value;
      var j := UsableCode(codes, users[i].id, code);
      j.Some? && codes[j.value].expiracion < now
  {
    match ByEmail(users, NormalizeEmail(email))
    case None => NoUser
    case Some(i) =>
      match UsableCode(codes, users[i].id, code)
      case None => NoCode
      case Some(j) => if codes[j].expiracion < now then Expired else Use(i, j)
  }

  /** The user and verification-code tables with the role names and the next
      identifier the database would assign. */
  class UserStore {
    var users: seq<User>
    var codes: seq<Code>
    var roles: set<string>
    var nextId: nat

    /** Identifiers are distinct and below `nextId`. */
    predicate Valid()
      reads this
    {
      && (forall i :: 0 <= i < |users| ==> users[i].id < nextId)
      && (forall i, j :: 0 <= i < j < |users| ==> users[i].id != users[j].id)
    }

    constructor (roles0: set<string>)
      ensures Valid() && users == [] && codes == [] && roles == roles0 && nextId == 1
    {
      users := [];
      codes := [];
      roles := roles0;
      nextId := 1;
    }

    /** `change_password`: the first user called `username` gets the new name
        and password, and loses the temporary-password flag. */
    method ChangePassword(username: string, newUsername: string, newPassword: string) returns (r: Reply)
      requires Valid()
      modifies this
      ensures Valid()
      ensures ByName(old(users), username).None? ==> r == Fail(404, UserNotFound) && users == old(users)
      ensures ByName(old(users), username).Some? ==>
        var i := ByName(old(users), username).value;
        r == Ok(ChangeDone) && users == old(users)[i := Changed(old(users)[i], newUsername, newPassword)]
      ensures codes == old(codes) && roles == old(roles) && nextId == old(nextId)
    {
      var i := ByName(users, username);
      if i.None? {
        r := Fail(404, UserNotFound);
      } else {
        users := users[i.value := Changed(users[i.value], newUsername, newPassword)];
        r := Ok(ChangeDone);
      }
    }

    /** `create_user`: with a known role a user is inserted with the generated
        name, the normalised address, enabled and flagged for a password
        change; the reply reports success whether or not the mail went out. */
    method CreateUser(email: string, role: string, tempPassword: string, mailError: Option<string>)
      returns (r: Reply, username: Option<string>)
      requires Valid() && IsTempPassword(tempPassword)
      modifies this
      ensures Valid()
      ensures role !in roles ==>
        r == Fail(400, RoleInvalid) && username == None && users == old(users) && nextId == old(nextId)
      ensures role in roles ==>
        && users == old(users) + [NewUser(old(nextId), email, role, tempPassword)]
        && nextId == old(nextId) + 1
        && username == Some(GenerateUsername(email))
        && r == Ok(if mailError.None? then CreatedAndSent else CreatedNotSent + mailError.value)
      ensures codes == old(codes) && roles == old(roles)
    {
      if role !in roles {
        r := Fail(400, RoleInvalid);
        username := None;
        return;
      }
      users := users + [NewUser(nextId, email, role, tempPassword)];
      nextId := nextId + 1;
      username := Some(GenerateUsername(email));
      r := Ok(if mailError.None? then CreatedAndSent else CreatedNotSent + mailError.value);
    }

    /** `request_password_reset`: for a known address a code row expiring ten
        minutes from `now` is inserted, and stays even when the mail fails. */
    method RequestPasswordReset(email: string, code: string, now: int, mailError: Option<string>)
      returns (r: Reply)
      requires Valid() && IsResetCode(code)
      modifies this
      ensures Valid()
      ensures ByEmail(old(users), NormalizeEmail(email)).None? ==>
        r == Fail(404, NoSuchEmail) && codes == old(codes)
      ensures ByEmail(old(users), NormalizeEmail(email)).Some? ==>
        var i := ByEmail(old(users), NormalizeEmail(email)).value;
        && codes == old(codes) + [Code(old(users)[i].id, code, now + CodeLifetime, false)]
        && r == (if mailError.None? then Ok(CodeSent) else Fail(500, CodeNotSent + mailError.value))
      ensures users == old(users) && roles == old(roles) && nextId == old(nextId)
    {
      var i := ByEmail(users, NormalizeEmail(email));
      if i.None? {
        r := Fail(404, NoSuchEmail);
        return;
      }
      codes := codes + [Code(users[i.value].id, code, now + CodeLifetime, false)];
      r := if mailError.None? then Ok(CodeSent) else Fail(500, CodeNotSent + mailError.value);
    }

    /** `reset_password`: the password changes only when an unused code row of
        that user matches and has not expired, and that row is then marked
        used, so the count of rows that would accept the code drops by one;
        every other outcome changes nothing. */
    method ResetPassword(email: string, code: string, newPassword: string, now: int) returns (r: Reply)
      requires Valid()
      modifies this
      ensures Valid()
      ensures var s := ResetStepOf(old(users), old(codes), email, code, now);
        && (s == NoUser ==> r == Fail(404, NoSuchEmail))
        && (s == NoCode ==> r == Fail(400, CodeInvalid))
        && (s == Expired ==> r == Fail(400, CodeExpired))
        && (s.Use? ==>
              && r == Ok(ResetDone)
              && users == old(users)[s.i := old(users)[s.i].(password := newPassword)]
              && codes == old(codes)[s.j := old(codes)[s.j].(usado := true)]
              && CountUsable(codes, old(users)[s.i].id, code)
                 == CountUsable(old(codes), old(users)[s.i].id, code) - 1)
      ensures !r.Ok? ==> users == old(users) && codes == old(codes)
      ensures roles == old(roles) && nextId == old(nextId)
    {
      var s := ResetStepOf(users, codes, email, code, now);
      match s {
        case NoUser => r := Fail(404, NoSuchEmail);
        case NoCode => r := Fail(400, CodeInvalid);
        case Expired => r := Fail(400, CodeExpired);
        case Use(i, j) =>
          CountAfterUse(codes, j, users[i].id, code);
          users := users[i := users[i].(password := newPassword)];
          codes := codes[j := codes[j].(usado := true)];
          r := Ok(ResetDone);
      }
    }

    /** `toggle_user`: the user with that identifier is enabled or disabled,
        and no other row changes. */
    method ToggleUser(id: nat) returns (r: ToggleReply)
      requires Valid()
      modifies this
      ensures Valid()
      ensures ById(old(users), id).None? ==> r == ToggleFailed(404, UserNotFound) && users == old(users)
      ensures ById(old(users), id).Some? ==>
        var i := ById(old(users), id).value;
        users == old(users)[i := old(users)[i].(activo := !old(users)[i].activo)]
        && r == Toggled(users[i].activo)
      ensures codes == old(codes) && roles == old(roles) && nextId == old(nextId)
    {
      var i := ById(users, id);
      if i.None? {
        r := ToggleFailed(404, UserNotFound);
        return;
      }
      users := users[i.value := users[i.value].(activo := !users[i.value].activo)];
      r := Toggled(users[i.value].activo);
    }

    /** `delete_user`: the user with that identifier is removed and the other
        rows keep their order; afterwards no user has that identifier. */
    method DeleteUser(id: nat) returns (r: Reply)
      requires Valid()
      modifies this
      ensures Valid()
      ensures ById(old(users), id).None? ==> r == Fail(404, UserNotFound) && users == old(users)
      ensures ById(old(users), id).Some? ==>
        var i := ById(old(users), id).value;
        r == Ok(UserDeleted) && users == old(users)[..i] + old(users)[i + 1..]
      ensures ById(users, id).None?
      ensures codes == old(codes) && roles == old(roles) && nextId == old(nextId)
    {
      var i := ById(users, id);
      if i.None? {
        r := Fail(404, UserNotFound);
        return;
      }
      var k := i.value;
      var rest := users[..k] + users[k + 1..];
      assert forall j :: 0 <= j < |rest| ==> rest[j] == users[if j < k then j else j + 1];
      users := rest;
      r := Ok(UserDeleted);
    }

    /** Toggling the same user twice restores the table. */
    method ToggleTwice(id: nat) returns (r1: ToggleReply, r2: ToggleReply)
      requires Valid()
      modifies this
      ensures users == old(users) && codes == old(codes)
      ensures r1.Toggled? <==> r2.Toggled?
      ensures r1.Toggled? ==> r2.activo == !r1.activo
    {
      ghost var before := users;
      r1 := ToggleUser(id);
      FirstIndexAgrees(before, users, (u: User) => u.id == id);
      r2 := ToggleUser(id);
    }

    /** A code issued once resets the password at most once. */
    method ResetTwice(email: string, code: string, p1: string, p2: string, now1: int, now2: int)
      returns (r1: Reply, r2: Reply)
      requires Valid()
      requires forall uid :: CountUsable(codes, uid, code) <= 1
      modifies this
      ensures !(r1.Ok? && r2.Ok?)
    {
      ghost var before := users;
      r1 := ResetPassword(email, code, p1, now1);
      if r1.Ok? {
        var e := NormalizeEmail(email);
        ByEmailAgrees(before, users, e);
        var uid := users[ByEmail(users, e).value].id;
        CountZeroIffNoneUsable(codes, uid, code);
      }
      r2 := ResetPassword(email, code, p2, now2);
    }

    /** A freshly issued code resets the password up to and including ten
        minutes after it was issued, and is reported expired after that. */
    method IssueThenReset(email: string, code: string, now: int, mailError: Option<string>,
                          newPassword: string, later: int)
      returns (r1: Reply, r2: Reply)
      requires Valid() && IsResetCode(code)
      requires ByEmail(users, NormalizeEmail(email)).Some?
      requires CountUsable(codes, users[ByEmail(users, NormalizeEmail(email)).value].id, code) == 0
      modifies this
      ensures later <= now + CodeLifetime ==> r2 == Ok(ResetDone)
      ensures later > now + CodeLifetime ==> r2 == Fail(400, CodeExpired)
    {
      var uid := users[ByEmail(users, NormalizeEmail(email)).value].id;
      CountZeroIffNoneUsable(codes, uid, code);
      ghost var before := codes;
      r1 := RequestPasswordReset(email, code, now, mailError);
      assert codes == before + [Code(uid, code, now + CodeLifetime, false)];
      assert Usable(codes[|before|], uid, code);
      assert forall k :: 0 <= k < |before| ==> codes[k] == before[k];
      r2 := ResetPassword(email, code, newPassword, later);
    }
  }
}
