/**
 * The local account table of the login and register screens (App.tsx):
 * the storage item 'users' holds a JSON object from normalised e-mail
 * (trimmed and lower-cased) to password, and 'lastLoggedUser' the user
 * last signed in.
 */
module Accounts {
  import opened Store
  import opened Text

  type Users = map<string, string>

  const UsersKey := "users"

  /** `users[e]` is truthy: the key is present and its password is not the
      empty string, which JavaScript reads as false. */
  predicate HasAccount(users: Users, e: string) {
    e in users && users[e] != ""
  }

  /** Why a login or a registration is turned down, one per error toast. */
  datatype Refusal = MissingFields | InvalidEmail | AlreadyRegistered | NoAccount | WrongPassword

  /** The outcome of either handler: refused, or signed in as `user` (the
      name handed to the home screen and stored as 'lastLoggedUser'). */
  datatype Answer = Rejected(why: Refusal) | Accepted(user: string)

  /** No whitespace and no '@': a run of `[^\s@]`. */
  predicate Plain(t: string) {
    forall k :: 0 <= k < |t| ==> !IsSpace(t[k]) && t[k] != '@'
  }

  /** The language of `^[^\s@]+@[^\s@]+\.[^\s@]+$`, read off the pattern:
      three non-empty plain runs joined by '@' and '.'. */
  ghost predicate MatchesPattern(s: string) {
    exists i, j :: 0 < i && i + 1 < j && j + 1 < |s| && s[i] == '@' && s[j] == '.'
      && Plain(s[..i]) && Plain(s[i + 1..j]) && Plain(s[j + 1..])
  }

  /** The test `handleRegister` applies, as a property of characters: no
      whitespace, exactly one '@' and not in first place, and after it a
      '.' that is neither right after the '@' nor last. */
  predicate EmailShape(s: string) {
    && (forall k :: 0 <= k < |s| ==> !IsSpace(s[k]))
    && (exists i :: 0 < i < |s| && s[i] == '@'
         && (forall k :: 0 <= k < |s| && k != i ==> s[k] != '@')
         && (exists j :: i + 1 < j < |s| - 1 && s[j] == '.'))
  }

  /** The character test accepts exactly the strings the pattern matches. */
  lemma EmailShapeIffPattern(s: string)
    ensures EmailShape(s) <==> MatchesPattern(s)
  {
    if EmailShape(s) {
      var i :| 0 < i < |s| && s[i] == '@'
        && (forall k :: 0 <= k < |s| && k != i ==> s[k] != '@')
        && (exists j :: i + 1 < j < |s| - 1 && s[j] == '.');
      var j :| i + 1 < j < |s| - 1 && s[j] == '.';
      var domain, tld := s[i + 1..j], s[j + 1..];
      forall k | 0 <= k < |domain|
        ensures !IsSpace(domain[k]) && domain[k] != '@'
      {
        assert domain[k] == s[i + 1 + k];
      }
      forall k | 0 <= k < |tld|
        ensures !IsSpace(tld[k]) && tld[k] != '@'
      {
        assert tld[k] == s[j + 1 + k];
      }
    }
    if MatchesPattern(s) {
      var i, j :| 0 < i && i + 1 < j && j + 1 < |s| && s[i] == '@' && s[j] == '.'
        && Plain(s[..i]) && Plain(s[i + 1..j]) && Plain(s[j + 1..]);
      PlainPieces(s, i, j);
      assert forall k :: 0 <= k < |s| && k != i ==> s[k] != '@';
    }
  }

  /** Every character outside the '@' and the '.' lies in one of the runs. */
  lemma PlainPieces(s: string, i: nat, j: nat)
    requires 0 < i && i + 1 < j && j + 1 < |s| && s[i] == '@' && s[j] == '.'
    requires Plain(s[..i]) && Plain(s[i + 1..j]) && Plain(s[j + 1..])
    ensures forall k :: 0 <= k < |s| ==> !IsSpace(s[k])
    ensures forall k :: 0 <= k < |s| && k != i ==> s[k] != '@'
  {
    forall k | 0 <= k < |s|
      ensures !IsSpace(s[k]) && (k != i ==> s[k] != '@')
    {
      if k < i {
        assert s[k] == s[..i][k];
      } else if i < k < j {
        assert s[k] == s[i + 1..j][k - i - 1];
      } else if j < k {
        assert s[k] == s[j + 1..][k - j - 1];
      }
    }
  }

  /** `handleLogin`'s decision: both fields must be filled, the normalised
      e-mail must have an account, and its password must be the one typed.
      The user signed in is the e-mail trimmed but not lower-cased. */
  function LoginDecision(users: Users, email: string, password: string): (r: Answer)
    ensures r.Accepted? <==>
      Trim(email) != "" && password != "" && Normalize(email) in users && users[Normalize(email)] == password
    ensures r.Accepted? ==> r.user == Trim(email)
    ensures Trim(email) == "" || password == "" ==> r == Rejected(MissingFields)
    ensures Trim(email) != "" && password != "" && !HasAccount(users, Normalize(email)) ==> r == Rejected(NoAccount)
    ensures r == Rejected(WrongPassword) <==>
      Trim(email) != "" && password != "" && HasAccount(users, Normalize(email)) && users[Normalize(email)] != password
  {
    if Trim(email) == "" || password == "" then Rejected(MissingFields)
    else
      var key := Normalize(email);
      if !HasAccount(users, key) then Rejected(NoAccount)
      else if users[key] != password then Rejected(WrongPassword)
      else Accepted(Trim(email))
  }

  /** `handleRegister`'s decision, guards in the source's order: both fields
      filled, then the e-mail pattern, then no existing account. The new
      account is the normalised e-mail. */
  function RegisterDecision(users: Users, email: string, password: string): (r: Answer)
    ensures r.Accepted? <==>
      Normalize(email) != "" && password != "" && MatchesPattern(Normalize(email)) && !HasAccount(users, Normalize(email))
    ensures r.Accepted? ==> r.user == Normalize(email)
    ensures Normalize(email) == "" || password == "" ==> r == Rejected(MissingFields)
    ensures Normalize(email) != "" && password != "" && !MatchesPattern(Normalize(email)) ==> r == Rejected(InvalidEmail)
    ensures r == Rejected(AlreadyRegistered) <==>
      Normalize(email) != "" && password != "" && MatchesPattern(Normalize(email)) && HasAccount(users, Normalize(email))
  {
    var e := Normalize(email);
    EmailShapeIffPattern(e);
    if e == "" || password == "" then Rejected(MissingFields)
    else if !EmailShape(e) then Rejected(InvalidEmail)
    else if HasAccount(users, e) then Rejected(AlreadyRegistered)
    else Accepted(e)
  }

  /** The table after `handleRegister`: one new entry when it succeeds,
      the same table otherwise. */
  function AfterRegister(users: Users, email: string, password: string): Users {
    if RegisterDecision(users, email, password).Accepted? then users[Normalize(email) := password] else users
  }

  /** A refused registration, an existing account in particular, leaves
      the table as it was. */
  lemma RegisterRefusedKeepsTable(users: Users, email: string, password: string)
    ensures RegisterDecision(users, email, password).Rejected? ==> AfterRegister(users, email, password) == users
  {
  }

  /** A successful registration adds its own entry, for an e-mail that had
      no account. */
  lemma RegisterAddsItsEntry(users: Users, email: string, password: string)
    ensures RegisterDecision(users, email, password).Accepted? ==>
      && AfterRegister(users, email, password).Keys == users.Keys + {Normalize(email)}
      && AfterRegister(users, email, password)[Normalize(email)] == password
      && (Normalize(email) !in users || users[Normalize(email)] == "")
  {
  }

  /** Every other entry is kept. */
  lemma RegisterKeepsOtherEntries(users: Users, email: string, password: string, k: string)
    ensures k in users && k != Normalize(email) ==>
      k in AfterRegister(users, email, password) && AfterRegister(users, email, password)[k] == users[k]
  {
  }

  lemma TrimmedIsEmpty(email: string)
    ensures Trim(email) == "" <==> Normalize(email) == ""
  {
    assert |Normalize(email)| == |Trim(email)|;
  }

  /** After a successful registration, logging in with any spelling that
      normalises to the same e-mail and with the same password succeeds,
      as that spelling trimmed. */
  lemma RegisterThenLogin(users: Users, email: string, password: string, login: string)
    requires RegisterDecision(users, email, password).Accepted?
    requires Normalize(login) == Normalize(email)
    ensures LoginDecision(AfterRegister(users, email, password), login, password) == Accepted(Trim(login))
  {
    TrimmedIsEmpty(login);
  }

  /** The same after registering, with a different password: refused as a
      wrong password. */
  lemma RegisterThenWrongPassword(users: Users, email: string, password: string, login: string, typed: string)
    requires RegisterDecision(users, email, password).Accepted?
    requires Normalize(login) == Normalize(email)
    requires typed != "" && typed != password
    ensures LoginDecision(AfterRegister(users, email, password), login, typed) == Rejected(WrongPassword)
  {
    TrimmedIsEmpty(login);
  }

  /** In particular: the login address may differ from the registered one
      in letter case and in surrounding whitespace. */
  lemma LoginIgnoresCaseAndPadding(users: Users, email: string, password: string, before: string, s: string, after: string)
    requires RegisterDecision(users, email, password).Accepted?
    requires AllSpace(before) && AllSpace(after) && ToLower(s) == ToLower(email)
    ensures LoginDecision(AfterRegister(users, email, password), before + s + after, password).Accepted?
  {
    NormalizeIgnoresCaseAndPadding(before, s, after, email);
    RegisterThenLogin(users, email, password, before + s + after);
  }

  /** The two storage items the account screens use. */
  class AccountStore {
    var items: map<string, Raw<Users>>
    var lastLoggedUser: Option<string>

    constructor (items: map<string, Raw<Users>>, lastLoggedUser: Option<string>)
      ensures this.items == items && this.lastLoggedUser == lastLoggedUser
    {
      this.items := items;
      this.lastLoggedUser := lastLoggedUser;
    }

    /** `getUsers()`: the stored table, or the empty one when the item is
        missing, empty or unparsable. */
    function GetUsers(): (users: Users)
      reads this
      ensures UsersKey in items && items[UsersKey].Json? ==> users == items[UsersKey].value
      ensures UsersKey !in items || items[UsersKey].Corrupt? ==> users == map[]
    {
      Read(items, UsersKey, map[])
    }

    /** `saveUsers(users)` */
    method SaveUsers(users: Users)
      modifies this
      ensures items == old(items)[UsersKey := Json(users)]
      ensures lastLoggedUser == old(lastLoggedUser)
      ensures GetUsers() == users
    {
      items := items[UsersKey := Json(users)];
    }

    /** `handleLogin`: the answer is the login decision on the stored
        table and the table is never written. A successful login records
        the trimmed e-mail as the last user and moves on to the home
        screen; when that `setItem`, which nothing catches, throws
        (`lastUserFails`), the handler stops before the navigation. */
    method HandleLogin(email: string, password: string, lastUserFails: bool) returns (r: Answer, navigated: bool)
      modifies this
      ensures r == old(LoginDecision(GetUsers(), email, password))
      ensures items == old(items)
      ensures navigated <==> r.Accepted? && !lastUserFails
      ensures navigated ==> lastLoggedUser == Some(Trim(email))
      ensures !navigated ==> lastLoggedUser == old(lastLoggedUser)
    {
      navigated := false;
      var trimmed := Trim(email);
      if trimmed == "" || password == "" {
        return Rejected(MissingFields), false;
      }
      var users := GetUsers();
      var key := ToLower(trimmed);
      if !HasAccount(users, key) {
        return Rejected(NoAccount), false;
      }
      if users[key] != password {
        return Rejected(WrongPassword), false;
      }
      r := Accepted(trimmed);
      if lastUserFails {
        return;
      }
      lastLoggedUser := Some(trimmed);
      navigated := true;
    }

    /** `handleRegister`: the answer is the register decision on the stored
        table. On success the table with the new entry is saved, then the
        normalised e-mail is recorded as the last user and the home screen
        follows; when that `setItem` throws (`lastUserFails`), the account
        stays saved but the handler stops there. A refusal writes nothing. */
    method HandleRegister(email: string, password: string, lastUserFails: bool) returns (r: Answer, navigated: bool)
      modifies this
      ensures r == old(RegisterDecision(GetUsers(), email, password))
      ensures r.Accepted? ==> items == old(items)[UsersKey := Json(AfterRegister(old(GetUsers()), email, password))]
      ensures navigated <==> r.Accepted? && !lastUserFails
      ensures navigated ==> lastLoggedUser == Some(Normalize(email))
      ensures !navigated ==> lastLoggedUser == old(lastLoggedUser)
      ensures r.Rejected? ==> items == old(items)
    {
      navigated := false;
      var e := Normalize(email);
      if e == "" || password == "" {
        return Rejected(MissingFields), false;
      }
      EmailShapeIffPattern(e);
      if !EmailShape(e) {
        return Rejected(InvalidEmail), false;
      }
      var users := GetUsers();
      if HasAccount(users, e) {
        return Rejected(AlreadyRegistered), false;
      }
      users := users[e := password];
      SaveUsers(users);
      r := Accepted(e);
      if lastUserFails {
        return;
      }
      lastLoggedUser := Some(e);
      navigated := true;
    }
  }
}
