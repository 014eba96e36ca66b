/** The external services the core talks to, reduced to the state the core
    observes: the identity provider's accounts and role claims, the verdict
    of token verification, and a log of attempted push messages. */
module IdentityProvider {
  import opened Common

  /** A decoded ID token: the subject id and the role claim it carries. */
  datatype Claims = Claims(uid: string, role: Option<string>)

  /** An identity created by `createUser`. */
  datatype Account = Account(uid: string, email: string, password: string, displayName: string)

  /** No two accounts share a uid or an email. */
  ghost predicate UniqueAccounts(accounts: seq<Account>)
  {
    forall i, j :: 0 <= i < j < |accounts| ==> accounts[i].uid != accounts[j].uid && accounts[i].email != accounts[j].email
  }

  predicate HasAccount(accounts: seq<Account>, uid: string)
  {
    exists k :: 0 <= k < |accounts| && accounts[k].uid == uid
  }

  /** Whether `createUser` accepts a new account with this uid and email. */
  predicate AccountAvailable(accounts: seq<Account>, uid: string, email: string)
  {
    forall k :: 0 <= k < |accounts| ==> accounts[k].uid != uid && accounts[k].email != email
  }

  lemma {:induction false} AddAccountKeepsUnique(accounts: seq<Account>, a: Account)
    requires UniqueAccounts(accounts) && AccountAvailable(accounts, a.uid, a.email)
    ensures UniqueAccounts(accounts + [a])
    ensures forall uid :: HasAccount(accounts, uid) ==> HasAccount(accounts + [a], uid)
  {
    var s := accounts + [a];
    forall uid | HasAccount(accounts, uid) ensures HasAccount(s, uid) {
      var k :| 0 <= k < |accounts| && accounts[k].uid == uid;
      assert s[k] == accounts[k];
    }
    forall i, j | 0 <= i < j < |s| ensures s[i].uid != s[j].uid && s[i].email != s[j].email {
      if j == |accounts| {
        assert s[i] == accounts[i];
      }
    }
  }

  /** The identity provider: its accounts and the `role` custom claim of
      each account that has one. */
  class Provider {
    var accounts: seq<Account>
    var roleClaims: map<string, string>

    ghost predicate Valid()
      reads this
    {
      UniqueAccounts(accounts) && forall uid :: uid in roleClaims ==> HasAccount(accounts, uid)
    }

    constructor()
      ensures Valid() && accounts == [] && roleClaims == map[]
    {
      accounts := [];
      roleClaims := map[];
    }
  }

  /** A push message as handed to the gateway. */
  datatype Push = Push(title: string, body: string, token: string)

  /** The push gateway, seen as the log of sends the core attempted. */
  class PushGateway {
    var attempts: seq<Push>

    constructor()
      ensures attempts == []
    {
      attempts := [];
    }
  }
}
