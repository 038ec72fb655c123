/** HTTP basic authentication (pkg/auth/auth.go): the authenticator keeps
    the base 64 text of every configured "name:password" and accepts an
    Authorization header of the form "Basic <that text>". */
module Auth {
  import opened Text
  import opened Encoding

  /** One configured user (pkg/config/config.go). */
  datatype User = User(name: string, password: string)

  /** The text a client sends for `u`: the base 64 encoding of the UTF-8
      bytes of "name:password". */
  function Credential(u: User): string {
    Base64(Utf8(u.name + ":" + u.password))
  }

  /** The credentials of a list of users. */
  function Credentials(users: seq<User>): set<string>
  {
    set u | u in users :: Credential(u)
  }

  lemma CredentialsAppend(users: seq<User>, u: User)
    ensures Credentials(users + [u]) == Credentials(users) + {Credential(u)}
  {
    forall x | x in Credentials(users + [u])
      ensures x in Credentials(users) + {Credential(u)}
    {
      var v :| v in users + [u] && x == Credential(v);
      if v != u {
        assert v in users;
      }
    }
  }

  /** The scheme prefix the header must start with. */
  const Scheme: string := "Basic "

  /** Whether `store` accepts `authorization`: it starts with "Basic " and
      what follows, trimmed of white space, is stored as true. A missing
      entry reads as false. */
  predicate Accepted(store: map<string, bool>, authorization: string) {
    HasPrefix(authorization, Scheme) &&
    var encoded := TrimSpace(authorization[|Scheme|..]);
    encoded in store && store[encoded]
  }

  class BasicAuthenticator {
    /** Every valid credential text, mapped to true. */
    var authStore: map<string, bool>

    predicate Valid()
      reads this
    {
      forall k | k in authStore :: authStore[k]
    }

    /** `NewBasicAuthenticator`: stores the credential of every user. */
    constructor (users: seq<User>)
      ensures Valid() && authStore.Keys == Credentials(users)
    {
      authStore := map[];
      new;
      for i := 0 to |users|
        invariant forall k | k in authStore :: authStore[k]
        invariant authStore.Keys == Credentials(users[..i])
      {
        var user := users[i];
        var base := user.name + ":" + user.password;
        var encoded := Base64(Utf8(base));
        assert users[..i + 1] == users[..i] + [user];
        CredentialsAppend(users[..i], user);
        authStore := authStore[encoded := true];
      }
      assert users[..|users|] == users;
    }

    /** `Authenticate`: reads the store and changes nothing. */
    method Authenticate(authorization: string) returns (ok: bool)
      ensures ok == Accepted(authStore, authorization)
    {
      if !HasPrefix(authorization, "Basic ") {
        return false;
      }
      var encoded := TrimSpace(authorization[6..]);
      ok := encoded in authStore && authStore[encoded];
    }
  }

  // ---------------------------------------------------------------------
  // What the authenticator accepts

  /** Over a valid store, a header is accepted exactly when it has the
      scheme prefix and its trimmed remainder is a stored credential. */
  lemma AcceptedByUsers(store: map<string, bool>, users: seq<User>, authorization: string)
    requires forall k | k in store :: store[k]
    requires store.Keys == Credentials(users)
    ensures Accepted(store, authorization) <==>
      HasPrefix(authorization, Scheme) &&
      exists u :: u in users && TrimSpace(authorization[|Scheme|..]) == Credential(u)
  {
  }

  /** Every configured user gets in with "Basic " and their credential. */
  lemma UserAccepted(store: map<string, bool>, users: seq<User>, u: User)
    requires forall k | k in store :: store[k]
    requires store.Keys == Credentials(users)
    requires u in users
    ensures Accepted(store, Scheme + Credential(u))
  {
    var h := Scheme + Credential(u);
    assert h[..|Scheme|] == Scheme;
    assert h[|Scheme|..] == Credential(u);
    Base64NoSpace(Utf8(u.name + ":" + u.password));
    TrimSpaceKeeps(Credential(u));
  }

  /** With no users configured, nothing gets in. */
  lemma NoUsersNoAccess(store: map<string, bool>, authorization: string)
    requires store.Keys == Credentials([])
    ensures !Accepted(store, authorization)
  {
    assert store.Keys == {};
  }

  /** A header without the "Basic " prefix is refused, whatever follows. */
  lemma OtherSchemeRefused(store: map<string, bool>, authorization: string)
    requires !HasPrefix(authorization, Scheme)
    ensures !Accepted(store, authorization)
  {
  }

  /** Two users share a credential only when their "name:password" texts
      are the same. */
  lemma CredentialsDistinct(u: User, v: User)
    requires Credential(u) == Credential(v)
    ensures Utf8(u.name + ":" + u.password) == Utf8(v.name + ":" + v.password)
  {
    Base64Injective(Utf8(u.name + ":" + u.password), Utf8(v.name + ":" + v.password));
  }
}
