/** The authentication routes: registration, login, profile update, and the
    forgot/reset password flow with single-use, one-hour tokens. Body fields
    arrive as strings, and "" stands for an absent (falsy) field. */
module Accounts {
  import opened Basics
  import opened Text
  import opened Store

  /** `SELECT * FROM users WHERE email = ?`. */
  function UserByEmail(s: State, email: string): (r: Option<User>)
    ensures r.None? <==> forall u :: u in s.users ==> u.email != email
    ensures r.Some? ==> r.value in s.users && r.value.email == email
  {
    Find(s.users, (u: User) => u.email == email)
  }

  /** With unique emails, the account holding an email is the one found. */
  lemma UserByEmailUnique(s: State, u: User)
    requires UniqueEmails(s.users) && u in s.users
    ensures UserByEmail(s, u.email) == Some(u)
  {
    var found := UserByEmail(s, u.email).value;
    var i :| 0 <= i < |s.users| && s.users[i] == u;
    var j :| 0 <= j < |s.users| && s.users[j] == found;
    assert i == j by {
      assert s.users[i].email == s.users[j].email;
    }
  }

  // --------------------------------------------------------------- register

  /** The phone column: `phone || null`. */
  function PhoneField(phone: string): Option<string>
  {
    if phone == "" then None else Some(phone)
  }

  /** POST /api/auth/register. The reply carries the new user id, which also
      becomes the session user. */
  function Register(s: State, email: string, password: string, name: string, phone: string): (out: Step<Id>)
    ensures email == "" || password == "" || name == "" ==>
              out == Step(Err(400, "Email, password, and name are required"), s)
    ensures email != "" && password != "" && name != "" && UserByEmail(s, email).Some? ==>
              out == Step(Err(400, "Email already registered"), s)
    ensures out.response.Ok? <==> email != "" && password != "" && name != "" && UserByEmail(s, email).None?
    ensures out.response.Ok? ==>
              && out.response == Ok(201, s.clock)
              && out.state.users == s.users + [User(s.clock, email, Hash(password), name, PhoneField(phone), DefaultAvatar)]
              && out.state.(users := s.users, clock := s.clock) == s
  {
    if email == "" || password == "" || name == "" then
      Step(Err(400, "Email, password, and name are required"), s)
    else if UserByEmail(s, email).Some? then
      Step(Err(400, "Email already registered"), s)
    else
      var u := User(s.clock, email, Hash(password), name, PhoneField(phone), DefaultAvatar);
      Step(Ok(201, s.clock), s.(users := s.users + [u], clock := s.clock + 1))
  }

  /** Registration keeps emails unique and every other rule. */
  lemma RegisterPreservesValid(s: State, email: string, password: string, name: string, phone: string)
    requires Valid(s)
    ensures Valid(Register(s, email, password, name, phone).state)
  {
    var out := Register(s, email, password, name, phone);
    if out.response.Ok? {
      var s' := out.state;
      ChronologicalLater(s, s.clock + 1);
      StampedAppend(s.users, s'.users[|s.users|], (u: User) => u.id, s.clock);
      assert s'.users == s.users + [s'.users[|s.users|]];
      forall i, j | 0 <= i < j < |s'.users|
        ensures s'.users[i].email != s'.users[j].email
      {
        assert s.users[i] in s.users;
      }
      assert EmailsPresent(s'.users);
      assert Linked(s') by {
        assert forall id: Id :: HasUser(s.users, id) ==> HasUser(s'.users, id) by {
          forall id: Id | HasUser(s.users, id)
            ensures HasUser(s'.users, id)
          {
            var u :| u in s.users && u.id == id;
            assert u in s'.users;
          }
        }
      }
    }
  }

  /** Registering the same email twice is refused the second time. */
  lemma RegisterTwiceRefused(s: State, email: string, p1: string, n1: string, f1: string,
                             p2: string, n2: string, f2: string)
    requires Register(s, email, p1, n1, f1).response.Ok?
    requires p2 != "" && n2 != ""
    ensures var s' := Register(s, email, p1, n1, f1).state;
            Register(s', email, p2, n2, f2).response == Err(400, "Email already registered")
  {
    var s' := Register(s, email, p1, n1, f1).state;
    assert s'.users[|s.users|] in s'.users;
  }

  // ------------------------------------------------------------------ login

  const BadCredentials := "Invalid email or password"

  /** POST /api/auth/login. The reply carries the session user id. */
  function Login(s: State, email: string, password: string): (r: Response<Id>)
    ensures email == "" || password == "" ==> r == Err(400, "Email and password are required")
    ensures email != "" && password != "" && r.Err? ==> r == Err(401, BadCredentials)
    ensures r.Ok? ==> r.code == 200 && exists u :: u in s.users && u.email == email && u.id == r.value
                                                   && Verify(password, u.password)
  {
    if email == "" || password == "" then Err(400, "Email and password are required")
    else
      match UserByEmail(s, email)
      case None => Err(401, BadCredentials)
      case Some(u) => if Verify(password, u.password) then Ok(200, u.id) else Err(401, BadCredentials)
  }

  /** With unique emails, login succeeds exactly for an account's email and
      its password, and answers that account's id. */
  lemma LoginIffCredentials(s: State, email: string, password: string)
    requires UniqueEmails(s.users) && email != "" && password != ""
    ensures Login(s, email, password).Ok? <==>
              exists u :: u in s.users && u.email == email && Verify(password, u.password)
    ensures forall u :: u in s.users && u.email == email && Verify(password, u.password) ==>
              Login(s, email, password) == Ok(200, u.id)
  {
    forall u | u in s.users && u.email == email && Verify(password, u.password)
      ensures Login(s, email, password) == Ok(200, u.id)
    {
      UserByEmailUnique(s, u);
    }
  }

  /** A new account can log in with the password it registered. */
  lemma RegisterThenLogin(s: State, email: string, password: string, name: string, phone: string)
    requires Register(s, email, password, name, phone).response.Ok?
    ensures Login(Register(s, email, password, name, phone).state, email, password) == Ok(200, s.clock)
  {
    var s' := Register(s, email, password, name, phone).state;
    var u := s'.users[|s.users|];
    assert u in s'.users;
    var found := UserByEmail(s', email).value;
    var j :| 0 <= j < |s'.users| && s'.users[j] == found;
    assert j == |s.users|;
  }

  // ---------------------------------------------------------------- profile

  const EmailTaken := "Cet email est d\U{00E9}j\U{00E0} utilis\U{00E9}"

  datatype ProfileForm = ProfileForm(name: Option<string>, phone: Option<string>, email: string,
                                     password: string, upload: Option<string>)

  /** Another account already holds the email. */
  predicate TakenByOther(s: State, email: string, caller: Id)
  {
    exists u :: u in s.users && u.email == email && u.id != caller
  }

  /** The columns PUT /api/auth/profile writes: name and phone always, the
      email when given, the password when not blank, the photo when uploaded. */
  function ProfileEdit(u: User, name: string, f: ProfileForm): User
  {
    u.(name := name, phone := f.phone,
       email := if f.email != "" then f.email else u.email,
       password := if !IsBlank(f.password) then Hash(f.password) else u.password,
       photo := if f.upload.Some? then "/uploads/profiles/" + f.upload.value else u.photo)
  }

  /** The columns the profile reply re-selects: the credential is not among them. */
  datatype PublicUser = PublicUser(id: Id, email: string, name: string, phone: Option<string>, photo: string)

  function Public(u: User): PublicUser
  {
    PublicUser(u.id, u.email, u.name, u.phone, u.photo)
  }

  datatype ProfileResult = ProfileResult(user: PublicUser, emailChanged: bool)

  /** PUT /api/auth/profile. An absent name is written as NULL into a NOT NULL
      column, which fails with a server error after the email check. */
  function UpdateProfile(s: State, caller: Id, f: ProfileForm): (out: Step<ProfileResult>)
    requires HasUser(s.users, caller)
    ensures var me := UserById(s, caller).value;
            f.email != "" && f.email != me.email && TakenByOther(s, f.email, caller) ==>
              out == Step(Err(400, EmailTaken), s)
    ensures var me := UserById(s, caller).value;
            !(f.email != "" && f.email != me.email && TakenByOther(s, f.email, caller)) && f.name.None? ==>
              out == Step(Err(500, ServerError), s)
    ensures out.response.Ok? ==>
              var me := UserById(s, caller).value;
              && f.name.Some?
              && out.response.code == 200
              && out.response.value.emailChanged == (f.email != "" && f.email != me.email)
              && out.response.value.user == PublicUser(caller, if f.email != "" then f.email else me.email,
                                                        f.name.value, f.phone,
                                                        if f.upload.Some? then "/uploads/profiles/" + f.upload.value else me.photo)
              && |out.state.users| == |s.users|
              && (forall i :: 0 <= i < |s.users| ==>
                    out.state.users[i] == if s.users[i].id == caller then ProfileEdit(s.users[i], f.name.value, f) else s.users[i])
              && out.state.(users := s.users) == s
  {
    var me := UserById(s, caller).value;
    var changed := f.email != "" && f.email != me.email;
    if changed && TakenByOther(s, f.email, caller) then Step(Err(400, EmailTaken), s)
    else if f.name.None? then Step(Err(500, ServerError), s)
    else
      var users' := Update(s.users, (u: User) => u.id == caller, (u: User) => ProfileEdit(u, f.name.value, f));
      Step(Ok(200, ProfileResult(Public(ProfileEdit(me, f.name.value, f)), changed)), s.(users := users'))
  }

  /** A profile update keeps emails unique and every other rule. */
  lemma UpdateProfilePreservesValid(s: State, caller: Id, f: ProfileForm)
    requires Valid(s) && HasUser(s.users, caller)
    ensures Valid(UpdateProfile(s, caller, f).state)
  {
    var out := UpdateProfile(s, caller, f);
    if out.response.Ok? {
      var s' := out.state;
      var me := UserById(s, caller).value;
      StampedUpdate(s.users, (u: User) => u.id == caller, (u: User) => ProfileEdit(u, f.name.value, f),
                    (u: User) => u.id, s.clock);
      ProfileEmailsUnique(s, caller, f);
      forall u | u in s'.users
        ensures u.email != ""
      {
        var k :| 0 <= k < |s'.users| && s'.users[k] == u;
        assert s.users[k] in s.users;
      }
      forall id: Id | HasUser(s.users, id)
        ensures HasUser(s'.users, id)
      {
        var u :| u in s.users && u.id == id;
        var k :| 0 <= k < |s.users| && s.users[k] == u;
        assert s'.users[k] in s'.users;
      }
    }
  }

  lemma ProfileEmailsUnique(s: State, caller: Id, f: ProfileForm)
    requires Valid(s) && HasUser(s.users, caller)
    requires UpdateProfile(s, caller, f).response.Ok?
    ensures UniqueEmails(UpdateProfile(s, caller, f).state.users)
  {
    var us := UpdateProfile(s, caller, f).state.users;
    var me := UserById(s, caller).value;
    var m :| 0 <= m < |s.users| && s.users[m] == me;
    forall i, j | 0 <= i < j < |us|
      ensures us[i].email != us[j].email
    {
      if s.users[i].id == caller {
        assert i == m by { assert s.users[i].id == s.users[m].id; }
        assert s.users[j].id != caller;
        assert s.users[j] in s.users;
      } else if s.users[j].id == caller {
        assert j == m by { assert s.users[j].id == s.users[m].id; }
        assert s.users[i] in s.users;
      }
    }
  }

  /** After a profile update that sets a new password, the account logs in
      with that password under its (possibly new) email. */
  lemma ProfilePasswordLogin(s: State, caller: Id, f: ProfileForm)
    requires Valid(s) && HasUser(s.users, caller)
    requires UpdateProfile(s, caller, f).response.Ok? && !IsBlank(f.password)
    ensures var me := UserById(s, caller).value;
            var email := if f.email != "" then f.email else me.email;
            Login(UpdateProfile(s, caller, f).state, email, f.password) == Ok(200, caller)
  {
    var s' := UpdateProfile(s, caller, f).state;
    var me := UserById(s, caller).value;
    var m :| 0 <= m < |s.users| && s.users[m] == me;
    UpdateProfilePreservesValid(s, caller, f);
    assert s'.users[m] in s'.users;
    assert Trim(f.password) != [] && f.password != "";
    assert me.email != "" by { assert me in s.users; }
    UserByEmailUnique(s', s'.users[m]);
  }

  // ------------------------------------------------------- password reset

  const TokenAlphabet := "ABCDEFGHIJKLMNOPQRSTUVWXYZabcdefghijklmnopqrstuvwxyz0123456789"
  const TokenLength := 64
  const HourMs := 60 * 60 * 1000
  const ResetSent := "If an account exists, a reset link has been sent"

  /** What generateToken produces: 64 characters drawn from the alphabet.
      The draw itself is random, so the token is a parameter here. */
  predicate TokenShape(token: string)
  {
    |token| == TokenLength && forall i :: 0 <= i < |token| ==> token[i] in TokenAlphabet
  }

  predicate TokenInUse(s: State, token: string)
  {
    exists k :: k in s.tokens && k.token == token
  }

  /** POST /api/auth/forgot-password at time `now` (milliseconds), with the
      freshly drawn `token`. The reset e-mail is not modelled. */
  function ForgotPassword(s: State, email: string, token: string, now: int): (out: Step<string>)
    requires TokenShape(token)
    ensures email == "" ==> out == Step(Err(400, "Email is required"), s)
    ensures email != "" && UserByEmail(s, email).None? ==> out == Step(Ok(200, ResetSent), s)
    ensures email != "" && UserByEmail(s, email).Some? && TokenInUse(s, token) ==> out == Step(Err(500, ServerError), s)
    ensures email != "" && UserByEmail(s, email).Some? && !TokenInUse(s, token) ==>
              && out.response == Ok(200, ResetSent)
              && out.state.tokens == s.tokens + [ResetToken(s.clock, UserByEmail(s, email).value.id, token, now + HourMs, false)]
              && out.state.(tokens := s.tokens, clock := s.clock) == s
  {
    if email == "" then Step(Err(400, "Email is required"), s)
    else
      match UserByEmail(s, email)
      case None => Step(Ok(200, ResetSent), s)
      case Some(u) =>
        if TokenInUse(s, token) then Step(Err(500, ServerError), s)
        else
          Step(Ok(200, ResetSent),
               s.(tokens := s.tokens + [ResetToken(s.clock, u.id, token, now + HourMs, false)], clock := s.clock + 1))
  }

  /** The reply does not reveal whether an account holds the email. */
  lemma ForgotHidesAccounts(s: State, t: State, email: string, token: string, now: int)
    requires TokenShape(token) && email != ""
    requires !TokenInUse(s, token) && !TokenInUse(t, token)
    ensures ForgotPassword(s, email, token, now).response == ForgotPassword(t, email, token, now).response
  {
  }

  lemma ForgotPreservesValid(s: State, email: string, token: string, now: int)
    requires Valid(s) && TokenShape(token)
    ensures Valid(ForgotPassword(s, email, token, now).state)
  {
    var out := ForgotPassword(s, email, token, now);
    if email != "" && UserByEmail(s, email).Some? && !TokenInUse(s, token) {
      var s' := out.state;
      ChronologicalLater(s, s.clock + 1);
      StampedAppend(s.tokens, s'.tokens[|s.tokens|], (k: ResetToken) => k.id, s.clock);
      assert s'.tokens == s.tokens + [s'.tokens[|s.tokens|]];
      forall i, j | 0 <= i < j < |s'.tokens|
        ensures s'.tokens[i].token != s'.tokens[j].token
      {
        assert s.tokens[i] in s.tokens;
      }
      assert UserByEmail(s, email).value in s.users;
    }
  }

  /** A token that is not used and expires after `now`. */
  predicate Redeemable(k: ResetToken, token: string, now: int)
  {
    k.token == token && !k.used && k.expires > now
  }

  /** POST /api/auth/reset-password at time `now`. */
  function ResetPassword(s: State, token: string, password: string, now: int): (out: Step<string>)
    ensures token == "" || password == "" ==> out == Step(Err(400, "Token and password are required"), s)
    ensures token != "" && password != "" && Utf16Length(password) < 6 ==>
              out == Step(Err(400, "Password must be at least 6 characters"), s)
    ensures out.response.Ok? <==>
              token != "" && Utf16Length(password) >= 6 && exists k :: k in s.tokens && Redeemable(k, token, now)
    ensures token != "" && Utf16Length(password) >= 6 && !out.response.Ok? ==> out == Step(Err(400, "Invalid or expired token"), s)
    ensures out.response.Ok? ==>
              var k := Find(s.tokens, (k: ResetToken) => Redeemable(k, token, now)).value;
              && out.response == Ok(200, "Password updated successfully")
              && |out.state.users| == |s.users| && |out.state.tokens| == |s.tokens|
              && (forall i :: 0 <= i < |s.users| ==>
                    out.state.users[i] == if s.users[i].id == k.user then s.users[i].(password := Hash(password)) else s.users[i])
              && (forall i :: 0 <= i < |s.tokens| ==>
                    out.state.tokens[i] == if s.tokens[i].id == k.id then s.tokens[i].(used := true) else s.tokens[i])
              && out.state.(users := s.users, tokens := s.tokens) == s
  {
    if token == "" || password == "" then Step(Err(400, "Token and password are required"), s)
    else if Utf16Length(password) < 6 then Step(Err(400, "Password must be at least 6 characters"), s)
    else
      match Find(s.tokens, (k: ResetToken) => Redeemable(k, token, now))
      case None => Step(Err(400, "Invalid or expired token"), s)
      case Some(k) =>
        Step(Ok(200, "Password updated successfully"),
             s.(users := Update(s.users, (u: User) => u.id == k.user, (u: User) => u.(password := Hash(password))),
                tokens := Update(s.tokens, (t: ResetToken) => t.id == k.id, (t: ResetToken) => t.(used := true))))
  }

  /** The length rule counts UTF-16 units, as `password.length` does: three
      emoji are six units and pass it, five ASCII letters do not. */
  lemma ResetLengthInUtf16Units(s: State, token: string, now: int)
    requires token != ""
    ensures ResetPassword(s, token, "\U{1F600}\U{1F600}\U{1F600}", now).response
            != Err(400, "Password must be at least 6 characters")
    ensures ResetPassword(s, token, "abcde", now) == Step(Err(400, "Password must be at least 6 characters"), s)
  {
    var emoji := "\U{1F600}\U{1F600}\U{1F600}";
    assert emoji[1..] == "\U{1F600}\U{1F600}";
    assert emoji[1..][1..] == "\U{1F600}";
    assert Utf16Length(emoji) == 6;
  }

  /** A token works once: a second reset with it is refused. */
  lemma ResetSingleUse(s: State, token: string, p1: string, p2: string, now1: int, now2: int)
    requires Valid(s)
    requires ResetPassword(s, token, p1, now1).response.Ok?
    requires Utf16Length(p2) >= 6
    ensures ResetPassword(ResetPassword(s, token, p1, now1).state, token, p2, now2)
            == Step(Err(400, "Invalid or expired token"), ResetPassword(s, token, p1, now1).state)
  {
    var s' := ResetPassword(s, token, p1, now1).state;
    var k := Find(s.tokens, (k: ResetToken) => Redeemable(k, token, now1)).value;
    var m :| 0 <= m < |s.tokens| && s.tokens[m] == k;
    forall x | x in s'.tokens
      ensures !Redeemable(x, token, now2)
    {
      var i :| 0 <= i < |s'.tokens| && s'.tokens[i] == x;
      assert s.tokens[i].token == token ==> i == m;
    }
  }

  /** Forgot then reset within the hour changes the password, after which the
      account logs in with it; after the hour the token is refused. */
  lemma ForgotThenReset(s: State, email: string, token: string, now: int, later: int, password: string)
    requires Valid(s) && TokenShape(token)
    requires email != "" && UserByEmail(s, email).Some? && !TokenInUse(s, token)
    requires Utf16Length(password) >= 6
    ensures var s1 := ForgotPassword(s, email, token, now).state;
            var r := ResetPassword(s1, token, password, later);
            && (later < now + HourMs ==> r.response.Ok? && Login(r.state, email, password) == Ok(200, UserByEmail(s, email).value.id))
            && (later >= now + HourMs ==> r == Step(Err(400, "Invalid or expired token"), s1))
  {
    IssuedTokenOnly(s, email, token, now);
    if later < now + HourMs {
      ResetInTime(s, email, token, now, later, password);
    }
  }

  /** The token just issued is the only row that holds it. */
  lemma IssuedTokenOnly(s: State, email: string, token: string, now: int)
    requires TokenShape(token)
    requires email != "" && UserByEmail(s, email).Some? && !TokenInUse(s, token)
    ensures var s1 := ForgotPassword(s, email, token, now).state;
            && |s1.tokens| == |s.tokens| + 1
            && s1.tokens[|s.tokens|].expires == now + HourMs && !s1.tokens[|s.tokens|].used
            && forall x :: x in s1.tokens && x.token == token ==> x == s1.tokens[|s.tokens|]
  {
    var s1 := ForgotPassword(s, email, token, now).state;
    var issued := s1.tokens[|s.tokens|];
    forall x | x in s1.tokens && x.token == token
      ensures x == issued
    {
      var i :| 0 <= i < |s1.tokens| && s1.tokens[i] == x;
      assert i == |s.tokens|;
    }
  }

  lemma ResetInTime(s: State, email: string, token: string, now: int, later: int, password: string)
    requires Valid(s) && TokenShape(token)
    requires email != "" && UserByEmail(s, email).Some? && !TokenInUse(s, token)
    requires Utf16Length(password) >= 6 && later < now + HourMs
    requires var s1 := ForgotPassword(s, email, token, now).state;
             forall x :: x in s1.tokens && x.token == token ==> x == s1.tokens[|s.tokens|]
    ensures var s1 := ForgotPassword(s, email, token, now).state;
            var r := ResetPassword(s1, token, password, later);
            r.response.Ok? && Login(r.state, email, password) == Ok(200, UserByEmail(s, email).value.id)
  {
    var s1 := ForgotPassword(s, email, token, now).state;
    var u := UserByEmail(s, email).value;
    var issued := s1.tokens[|s.tokens|];
    assert issued in s1.tokens;
    var r := ResetPassword(s1, token, password, later);
    var m :| 0 <= m < |s.users| && s.users[m] == u;
    assert r.state.users[m] in r.state.users;
    assert r.state.users[m] == u.(password := Hash(password));
    ResetPreservesEmails(s1, token, password, later);
    UserByEmailUnique(r.state, r.state.users[m]);
  }

  lemma ResetPreservesEmails(s: State, token: string, password: string, now: int)
    requires UniqueEmails(s.users)
    ensures UniqueEmails(ResetPassword(s, token, password, now).state.users)
  {
  }

  lemma ResetPreservesValid(s: State, token: string, password: string, now: int)
    requires Valid(s)
    ensures Valid(ResetPassword(s, token, password, now).state)
  {
    var out := ResetPassword(s, token, password, now);
    if out.response.Ok? {
      var k := Find(s.tokens, (k: ResetToken) => Redeemable(k, token, now)).value;
      ResetUsersValid(s, k.user, password);
      ResetTokensValid(s, k.id);
    }
  }

  lemma ResetUsersValid(s: State, user: Id, password: string)
    requires Valid(s)
    ensures Valid(s.(users := Update(s.users, (u: User) => u.id == user, (u: User) => u.(password := Hash(password)))))
  {
    var users' := Update(s.users, (u: User) => u.id == user, (u: User) => u.(password := Hash(password)));
    StampedUpdate(s.users, (u: User) => u.id == user, (u: User) => u.(password := Hash(password)),
                  (u: User) => u.id, s.clock);
    forall id: Id | HasUser(s.users, id)
      ensures HasUser(users', id)
    {
      var u :| u in s.users && u.id == id;
      var i :| 0 <= i < |s.users| && s.users[i] == u;
      assert users'[i] in users';
    }
    forall u | u in users'
      ensures u.email != ""
    {
      var i :| 0 <= i < |users'| && users'[i] == u;
      assert s.users[i] in s.users;
    }
  }

  lemma ResetTokensValid(s: State, id: Id)
    requires Valid(s)
    ensures Valid(s.(tokens := Update(s.tokens, (t: ResetToken) => t.id == id, (t: ResetToken) => t.(used := true))))
  {
    var tokens' := Update(s.tokens, (t: ResetToken) => t.id == id, (t: ResetToken) => t.(used := true));
    StampedUpdate(s.tokens, (t: ResetToken) => t.id == id, (t: ResetToken) => t.(used := true),
                  (t: ResetToken) => t.id, s.clock);
    forall x | x in tokens'
      ensures HasUser(s.users, x.user)
    {
      var i :| 0 <= i < |tokens'| && tokens'[i] == x;
      assert s.tokens[i] in s.tokens;
    }
  }
}
