/**
 * The account directory of the web service (backend/accounts_api.py): the
 * list of upstream mailbox accounts kept in `accounts.json`, the lookup of
 * a user's upstream route, and the list, add, update and delete endpoints.
 * The file is the `accounts` field; loading and saving it are left out.
 */
module AccountsApi {
  import opened Wrappers
  import opened Http

  /** An entry of the account list; `proxy` is the optional TLS flag. */
  datatype Account = Account(email: string, imapHost: string, imapPort: int, password: string, proxy: Option<bool>)

  /** The answer of `get_proxy_config_for_user`. */
  datatype Route = Route(upstreamHost: string, upstreamPort: int, upstreamSsl: bool)

  const Mask: string := "****"

  /** The route of one account; TLS is on unless the account says otherwise. */
  function RouteOf(a: Account): (r: Route)
    ensures r.upstreamHost == a.imapHost && r.upstreamPort == a.imapPort
    ensures a.proxy.None? ==> r.upstreamSsl
    ensures a.proxy.Some? ==> r.upstreamSsl == a.proxy.value
  {
    Route(a.imapHost, a.imapPort, if a.proxy.Some? then a.proxy.value else true)
  }

  predicate HasEmail(accounts: seq<Account>, email: string) {
    exists i | 0 <= i < |accounts| :: accounts[i].email == email
  }

  /** No two accounts share an email address. */
  predicate UniqueEmails(accounts: seq<Account>) {
    forall i, j :: 0 <= i < j < |accounts| ==> accounts[i].email != accounts[j].email
  }

  /** The index of the first account with this email. */
  function FirstIndex(accounts: seq<Account>, email: string): (r: Option<nat>)
    ensures r.None? <==> !HasEmail(accounts, email)
    ensures r.Some? ==> r.value < |accounts| && accounts[r.value].email == email
    ensures r.Some? ==> forall j :: 0 <= j < r.value ==> accounts[j].email != email
  {
    if accounts == [] then None
    else if accounts[0].email == email then Some(0)
    else
      match FirstIndex(accounts[1..], email)
      case None => None
      case Some(i) => Some(i + 1)
  }

  /** `get_proxy_config_for_user`: the route of the first account whose email is the user name. */
  function ProxyConfigForUser(accounts: seq<Account>, username: string): (r: Option<Route>)
    ensures r.None? <==> !HasEmail(accounts, username)
    ensures r.Some? ==> r == Some(RouteOf(accounts[FirstIndex(accounts, username).value]))
  {
    if accounts == [] then None
    else if accounts[0].email == username then Some(RouteOf(accounts[0]))
    else ProxyConfigForUser(accounts[1..], username)
  }

  /** An account as the endpoints show it: the password replaced by `****`. */
  function Masked(a: Account): Account {
    a.(password := Mask)
  }

  /** The list endpoint: every password masked, count, order and the other fields kept. */
  function MaskPasswords(accounts: seq<Account>): (r: seq<Account>)
    ensures |r| == |accounts|
    ensures forall i :: 0 <= i < |r| ==> r[i].password == Mask && r[i].(password := accounts[i].password) == accounts[i]
  {
    seq(|accounts|, i requires 0 <= i < |accounts| => Masked(accounts[i]))
  }

  /** The accounts whose email differs from `email`, in their order. */
  function RemoveEmail(accounts: seq<Account>, email: string): (r: seq<Account>)
    ensures |r| <= |accounts| && !HasEmail(r, email)
    ensures forall a :: a in r ==> a in accounts
    ensures forall a :: a in accounts && a.email != email ==> a in r
    ensures !HasEmail(accounts, email) ==> r == accounts
  {
    if accounts == [] then []
    else
      var rest := RemoveEmail(accounts[1..], email);
      HasEmailCons(accounts, email);
      if accounts[0].email == email then rest
      else
        HasEmailCons([accounts[0]] + rest, email);
        assert ([accounts[0]] + rest)[1..] == rest;
        [accounts[0]] + rest
  }

  /** An email is listed when the first account has it or the rest list it. */
  lemma HasEmailCons(accounts: seq<Account>, email: string)
    requires accounts != []
    ensures HasEmail(accounts, email) <==> accounts[0].email == email || HasEmail(accounts[1..], email)
    ensures accounts == [accounts[0]] + accounts[1..]
    ensures forall a :: a in accounts <==> a == accounts[0] || a in accounts[1..]
  {
    if HasEmail(accounts, email) && accounts[0].email != email {
      var i :| 0 <= i < |accounts| && accounts[i].email == email;
      assert accounts[1..][i - 1].email == email;
    }
    if HasEmail(accounts[1..], email) {
      var i :| 0 <= i < |accounts[1..]| && accounts[1..][i].email == email;
      assert accounts[i + 1].email == email;
    }
  }

  /** Removal works piece by piece, so the order of what is kept is the original order. */
  lemma {:induction false} RemoveEmailAppend(s: seq<Account>, t: seq<Account>, email: string)
    ensures RemoveEmail(s + t, email) == RemoveEmail(s, email) + RemoveEmail(t, email)
  {
    if s == [] {
      assert s + t == t;
    } else {
      assert (s + t)[1..] == s[1..] + t;
      RemoveEmailAppend(s[1..], t, email);
    }
  }

  /** A successful add keeps the emails unique. */
  lemma AddKeepsUnique(accounts: seq<Account>, a: Account)
    requires UniqueEmails(accounts) && !HasEmail(accounts, a.email)
    ensures UniqueEmails(accounts + [a])
  {
  }

  /** Replacing the first account with the same email keeps the emails unique. */
  lemma UpdateKeepsUnique(accounts: seq<Account>, a: Account)
    requires UniqueEmails(accounts) && FirstIndex(accounts, a.email).Some?
    ensures UniqueEmails(accounts[FirstIndex(accounts, a.email).value := a])
  {
  }

  /** Deleting keeps the emails unique. */
  lemma {:induction false} DeleteKeepsUnique(accounts: seq<Account>, email: string)
    requires UniqueEmails(accounts)
    ensures UniqueEmails(RemoveEmail(accounts, email))
  {
    if accounts != [] {
      var tail := accounts[1..];
      assert UniqueEmails(tail) by {
        forall i, j | 0 <= i < j < |tail| ensures tail[i].email != tail[j].email {
          assert tail[i] == accounts[i + 1] && tail[j] == accounts[j + 1];
        }
      }
      DeleteKeepsUnique(tail, email);
      var rest := RemoveEmail(tail, email);
      if accounts[0].email != email {
        var r := [accounts[0]] + rest;
        forall j | 0 < j < |r| ensures r[0].email != r[j].email {
          assert r[j] == rest[j - 1];
          UniqueHead(accounts, r[j]);
        }
      }
    }
  }

  /** In a list with unique emails, no later account shares the first one's email. */
  lemma UniqueHead(accounts: seq<Account>, a: Account)
    requires UniqueEmails(accounts) && accounts != [] && a in accounts[1..]
    ensures a.email != accounts[0].email
  {
    var k :| 0 <= k < |accounts[1..]| && accounts[1..][k] == a;
    assert accounts[k + 1] == a;
  }

  /** Adding an account never changes the route of a user already listed, and routes the new user to it. */
  lemma {:induction false} RouteAfterAdd(accounts: seq<Account>, a: Account, username: string)
    ensures ProxyConfigForUser(accounts + [a], username) ==
      if HasEmail(accounts, username) then ProxyConfigForUser(accounts, username)
      else if a.email == username then Some(RouteOf(a))
      else None
  {
    if accounts != [] {
      assert (accounts + [a])[1..] == accounts[1..] + [a];
      RouteAfterAdd(accounts[1..], a, username);
      if accounts[0].email != username {
        assert HasEmail(accounts, username) <==> HasEmail(accounts[1..], username) by {
          if HasEmail(accounts, username) {
            var i :| 0 <= i < |accounts| && accounts[i].email == username;
            assert accounts[1..][i - 1].email == username;
          }
          if HasEmail(accounts[1..], username) {
            var i :| 0 <= i < |accounts[1..]| && accounts[1..][i].email == username;
            assert accounts[i + 1].email == username;
          }
        }
      }
    } else {
      assert !HasEmail(accounts, username);
    }
  }

  /** After an update, the updated user is routed by the new account; every other user keeps its route. */
  lemma {:induction false} RouteAfterUpdate(accounts: seq<Account>, a: Account, username: string)
    requires FirstIndex(accounts, a.email).Some?
    ensures var updated := accounts[FirstIndex(accounts, a.email).value := a];
      ProxyConfigForUser(updated, username) ==
        if username == a.email then Some(RouteOf(a)) else ProxyConfigForUser(accounts, username)
  {
    var i := FirstIndex(accounts, a.email).value;
    var updated := accounts[i := a];
    if i > 0 {
      assert accounts[0].email != a.email;
      assert updated[1..] == accounts[1..][i - 1 := a];
      assert FirstIndex(accounts[1..], a.email) == Some(i - 1);
      RouteAfterUpdate(accounts[1..], a, username);
    }
  }

  /** After a delete, the deleted user has no route and every other user keeps its route. */
  lemma {:induction false} RouteAfterDelete(accounts: seq<Account>, email: string, username: string)
    ensures ProxyConfigForUser(RemoveEmail(accounts, email), username) ==
      if username == email then None else ProxyConfigForUser(accounts, username)
  {
    if accounts != [] {
      RouteAfterDelete(accounts[1..], email, username);
    }
  }

  /** The account list behind the endpoints (the contents of `accounts.json`). */
  class AccountDirectory {
    var accounts: seq<Account>

    constructor(stored: seq<Account>)
      ensures accounts == stored
    {
      accounts := stored;
    }

    /** `GET /api/config/accounts` */
    method GetAccounts() returns (r: seq<Account>)
      ensures r == MaskPasswords(accounts)
    {
      r := seq(|accounts|, i requires 0 <= i < |accounts| reads this => Masked(accounts[i]));
    }

    /** `POST /api/config/account`: rejects a known email with 400, otherwise appends. */
    method AddAccount(account: Account) returns (r: Result<Account, HttpError>)
      modifies this
      ensures HasEmail(old(accounts), account.email) ==>
        r == Failure(HttpError(400, "Account already exists")) && accounts == old(accounts)
      ensures !HasEmail(old(accounts), account.email) ==>
        r == Success(Masked(account)) && accounts == old(accounts) + [account]
    {
      if exists i | 0 <= i < |accounts| :: accounts[i].email == account.email {
        return Failure(HttpError(400, "Account already exists"));
      }
      accounts := accounts + [account];
      r := Success(account.(password := Mask));
    }

    /** `PUT /api/config/account`: replaces the first account with the same email, or answers 404. */
    method UpdateAccount(account: Account) returns (r: Result<(), HttpError>)
      modifies this
      ensures FirstIndex(old(accounts), account.email).None? ==>
        r == Failure(HttpError(404, "Account not found")) && accounts == old(accounts)
      ensures FirstIndex(old(accounts), account.email).Some? ==>
        r == Success(()) && accounts == old(accounts)[FirstIndex(old(accounts), account.email).value := account]
    {
      var email := account.email;
      var i := 0;
      while i < |accounts|
        invariant 0 <= i <= |accounts| && accounts == old(accounts)
        invariant forall j :: 0 <= j < i ==> accounts[j].email != email
      {
        if accounts[i].email == email {
          accounts := accounts[i := account];
          return Success(());
        }
        i := i + 1;
      }
      r := Failure(HttpError(404, "Account not found"));
    }

    /** `DELETE /api/config/account`: removes every account with the email; always succeeds. */
    method DeleteAccount(email: string) returns (r: Result<(), HttpError>)
      modifies this
      ensures r == Success(()) && accounts == RemoveEmail(old(accounts), email)
    {
      accounts := RemoveEmail(accounts, email);
      r := Success(());
    }
  }
}
