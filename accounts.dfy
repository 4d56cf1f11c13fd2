/**
 * The list and field operations of the account and suite records of
 * `app/models.py`, over plain values: a user's role list, the API token
 * reuse rule, the copy of profile fields from a request, and the case list
 * of a test suite. Roles are identified by their ids; time is a number of
 * seconds passed in by the caller, and so is the new random token.
 */
module Accounts {
  import opened Support
  import opened Json

  // ----- role lists -----

  /** `roles.append(role)` unless `role` is already there. */
  function Added(roles: seq<int>, role: int): (r: seq<int>)
    ensures role in r
    ensures role in roles ==> r == roles
    ensures role !in roles ==> r == roles + [role]
  {
    if role in roles then roles else roles + [role]
  }

  /** `list.remove(role)`: drop the first occurrence; a list without `role` is returned as it is. */
  function RemoveFirst(roles: seq<int>, role: int): seq<int>
    decreases |roles|
  {
    if roles == [] then []
    else if roles[0] == role then roles[1..]
    else [roles[0]] + RemoveFirst(roles[1..], role)
  }

  /** No role occurs twice. */
  predicate NoDuplicates(roles: seq<int>) {
    forall i, j :: 0 <= i < j < |roles| ==> roles[i] != roles[j]
  }

  /** Removing an absent role changes nothing. */
  lemma {:induction false} RemoveAbsent(roles: seq<int>, role: int)
    requires role !in roles
    ensures RemoveFirst(roles, role) == roles
    decreases |roles|
  {
    if roles != [] {
      RemoveAbsent(roles[1..], role);
    }
  }

  /**
   * Removing a present role takes out exactly its first occurrence, at the
   * returned position, and keeps the other roles in order.
   */
  lemma {:induction false} RemovePresent(roles: seq<int>, role: int) returns (i: nat)
    requires role in roles
    ensures i < |roles| && roles[i] == role && role !in roles[..i]
    ensures RemoveFirst(roles, role) == roles[..i] + roles[i + 1..]
    decreases |roles|
  {
    if roles[0] == role {
      i := 0;
    } else {
      var j := RemovePresent(roles[1..], role);
      i := j + 1;
      assert roles[..i] == [roles[0]] + roles[1..][..j];
      assert roles[i + 1..] == roles[1..][j + 1..];
    }
  }

  /** `remove_role` takes away one copy of a present role and nothing else. */
  lemma {:induction false} RemoveFirstSpec(roles: seq<int>, role: int)
    ensures role !in roles ==> RemoveFirst(roles, role) == roles
    ensures role in roles ==> |RemoveFirst(roles, role)| == |roles| - 1
    ensures multiset(RemoveFirst(roles, role)) == multiset(roles) - multiset{role}
  {
    if role in roles {
      var i := RemovePresent(roles, role);
      var before, after := roles[..i], roles[i + 1..];
      assert roles == before + [role] + after;
      assert multiset(roles) == multiset(before) + multiset{role} + multiset(after);
      assert multiset(before + after) == multiset(before) + multiset(after);
    } else {
      RemoveAbsent(roles, role);
    }
  }

  /** Adding a role never introduces a duplicate. */
  lemma AddedKeepsDistinct(roles: seq<int>, role: int)
    requires NoDuplicates(roles)
    ensures NoDuplicates(Added(roles, role))
  {
  }

  /** Adding a role the user lacked and then removing it gives the original list back. */
  lemma {:induction false} AddThenRemove(roles: seq<int>, role: int)
    requires role !in roles
    ensures RemoveFirst(Added(roles, role), role) == roles
    decreases |roles|
  {
    if roles != [] {
      AddThenRemove(roles[1..], role);
      assert Added(roles, role)[1..] == Added(roles[1..], role);
    }
  }

  // ----- API tokens -----

  /** The token fields of a user: `token` and `token_expiration`. */
  datatype TokenState = TokenState(token: Option<string>, expiration: Option<int>)

  /** `self.token` is truthy. */
  predicate HasToken(s: TokenState) {
    s.token.Some? && s.token.value != []
  }

  /** The lifetime `get_token` gives a new token when the caller names none: 300 seconds. */
  const DefaultExpiresIn: int := 300

  /**
   * `get_token(expires_in)` at time `now`, with `issued` the new random
   * token: the current token is reused while it stays valid for more than 60
   * seconds; otherwise `issued` replaces it and expires `expires_in` seconds
   * from now. A token without an expiration cannot be compared and raises.
   */
  function TokenStep(s: TokenState, now: int, expiresIn: int, issued: string): (r: Outcome<(string, TokenState)>)
    ensures r.Raised? <==> HasToken(s) && s.expiration.None?
    ensures r.Ok? && HasToken(s) && s.expiration.value > now + 60 ==> r.value == (s.token.value, s)
    ensures r.Ok? && !(HasToken(s) && s.expiration.value > now + 60) ==>
      r.value == (issued, TokenState(Some(issued), Some(now + expiresIn)))
  {
    if HasToken(s) then
      if s.expiration.None? then Raised(AttributeError)
      else if s.expiration.value > now + 60 then Ok((s.token.value, s))
      else Ok((issued, TokenState(Some(issued), Some(now + expiresIn))))
    else Ok((issued, TokenState(Some(issued), Some(now + expiresIn))))
  }

  /** `revoke_token()` at time `now`: the expiration moves one second into the past. */
  function Revoked(s: TokenState, now: int): (r: TokenState)
    ensures r.token == s.token && r.expiration == Some(now - 1)
  {
    TokenState(s.token, Some(now - 1))
  }

  /**
   * A token handed out is handed out again by any later call made more than
   * 60 seconds before it expires.
   */
  lemma TokenReused(s: TokenState, now: int, expiresIn: int, issued: string, later: int, other: string)
    requires TokenStep(s, now, expiresIn, issued).Ok?
    requires TokenStep(s, now, expiresIn, issued).value.0 != []
    requires later + 60 < TokenStep(s, now, expiresIn, issued).value.1.expiration.value
    ensures TokenStep(TokenStep(s, now, expiresIn, issued).value.1, later, expiresIn, other).Ok?
    ensures TokenStep(TokenStep(s, now, expiresIn, issued).value.1, later, expiresIn, other).value.0 ==
      TokenStep(s, now, expiresIn, issued).value.0
  {
  }

  /** After a revocation the next call issues the new token. */
  lemma RevokedTokenReplaced(s: TokenState, now: int, later: int, expiresIn: int, issued: string)
    requires now <= later + 61
    ensures TokenStep(Revoked(s, now), later, expiresIn, issued) == Ok((issued, TokenState(Some(issued), Some(later + expiresIn))))
  {
  }

  class User {
    var username: string
    var email: string
    var aboutMe: Option<string>
    var tokens: TokenState
    var roles: seq<int>

    constructor(username: string, email: string)
      ensures this.username == username && this.email == email && aboutMe == None
      ensures tokens == TokenState(None, None) && roles == []
    {
      this.username := username;
      this.email := email;
      this.aboutMe := None;
      this.tokens := TokenState(None, None);
      this.roles := [];
    }

    /** `has_role(role)`. */
    function HasRole(role: int): (b: bool)
      reads this
      ensures b <==> exists i :: 0 <= i < |roles| && roles[i] == role
    {
      role in roles
    }

    /** `add_role(role)`. */
    method AddRole(role: int)
      modifies this
      ensures roles == Added(old(roles), role) && HasRole(role)
      ensures username == old(username) && email == old(email) && aboutMe == old(aboutMe) && tokens == old(tokens)
    {
      if !HasRole(role) {
        roles := roles + [role];
      }
    }

    /** `remove_role(role)`. */
    method RemoveRole(role: int)
      modifies this
      ensures roles == RemoveFirst(old(roles), role)
      ensures username == old(username) && email == old(email) && aboutMe == old(aboutMe) && tokens == old(tokens)
    {
      if HasRole(role) {
        roles := RemoveFirst(roles, role);
      }
      RemoveFirstSpec(old(roles), role);
    }

    /** `get_token(expires_in)` at time `now`, with `issued` the new random token. */
    method GetToken(now: int, expiresIn: int, issued: string) returns (r: Outcome<string>)
      modifies this
      ensures var step := TokenStep(old(tokens), now, expiresIn, issued);
        (r.Raised? <==> step.Raised?) && (r.Ok? ==> r.value == step.value.0 && tokens == step.value.1)
      ensures r.Raised? ==> tokens == old(tokens)
      ensures username == old(username) && email == old(email) && aboutMe == old(aboutMe) && roles == old(roles)
    {
      if HasToken(tokens) {
        if tokens.expiration.None? {
          return Raised(AttributeError);
        }
        if tokens.expiration.value > now + 60 {
          return Ok(tokens.token.value);
        }
      }
      tokens := TokenState(Some(issued), Some(now + expiresIn));
      return Ok(issued);
    }

    /** `get_token()` with the default lifetime: a new token expires 300 seconds from now. */
    method GetTokenDefault(now: int, issued: string) returns (r: Outcome<string>)
      modifies this
      ensures var step := TokenStep(old(tokens), now, DefaultExpiresIn, issued);
        (r.Raised? <==> step.Raised?) && (r.Ok? ==> r.value == step.value.0 && tokens == step.value.1)
      ensures r.Ok? && !(HasToken(old(tokens)) && old(tokens).expiration.value > now + 60) ==>
        tokens.expiration == Some(now + 300)
      ensures username == old(username) && email == old(email) && aboutMe == old(aboutMe) && roles == old(roles)
    {
      r := GetToken(now, DefaultExpiresIn, issued);
    }

    /** `revoke_token()` at time `now`. */
    method RevokeToken(now: int)
      modifies this
      ensures tokens == Revoked(old(tokens), now)
      ensures username == old(username) && email == old(email) && aboutMe == old(aboutMe) && roles == old(roles)
    {
      tokens := TokenState(tokens.token, Some(now - 1));
    }

    /**
     * `from_dict(data)`: each of `username`, `email` and `about_me` present
     * in `data` is copied, and nothing else changes.
     */
    method FromDict(data: seq<(string, string)>)
      modifies this
      ensures username == (if Get(data, "username").Some? then Get(data, "username").value else old(username))
      ensures email == (if Get(data, "email").Some? then Get(data, "email").value else old(email))
      ensures aboutMe == (if Get(data, "about_me").Some? then Some(Get(data, "about_me").value) else old(aboutMe))
      ensures tokens == old(tokens) && roles == old(roles)
    {
      var fields := ["username", "email", "about_me"];
      for k := 0 to |fields|
        invariant username == (if "username" in fields[..k] && Get(data, "username").Some? then Get(data, "username").value else old(username))
        invariant email == (if "email" in fields[..k] && Get(data, "email").Some? then Get(data, "email").value else old(email))
        invariant aboutMe == (if "about_me" in fields[..k] && Get(data, "about_me").Some? then Some(Get(data, "about_me").value) else old(aboutMe))
        invariant tokens == old(tokens) && roles == old(roles)
      {
        assert fields[..k + 1] == fields[..k] + [fields[k]];
        var v := Get(data, fields[k]);
        if v.Some? {
          SetField(fields[k], v.value);
        }
      }
      assert fields[..3] == fields;
    }

    /** `setattr(self, field, value)` for the three profile fields. */
    method SetField(field: string, value: string)
      modifies this
      ensures username == (if field == "username" then value else old(username))
      ensures email == (if field == "email" then value else old(email))
      ensures aboutMe == (if field == "about_me" then Some(value) else old(aboutMe))
      ensures tokens == old(tokens) && roles == old(roles)
    {
      if field == "username" {
        username := value;
      } else if field == "email" {
        email := value;
      } else if field == "about_me" {
        aboutMe := Some(value);
      }
    }
  }

  // ----- test suites -----

  /** One row of the suite/case association: which case, in which suite, at which position. */
  class SuiteCase {
    var suiteId: int
    var caseId: int
    var sequence: int

    /** `SuiteCase(suite_id, case_id, sequence)`. */
    constructor(suiteId: int, caseId: int, sequence: int)
      ensures this.suiteId == suiteId && this.caseId == caseId && this.sequence == sequence
    {
      this.suiteId := suiteId;
      this.caseId := caseId;
      this.sequence := sequence;
    }
  }

  class TestSuite {
    var id: int
    var cases: seq<SuiteCase>

    constructor(id: int)
      ensures this.id == id && cases == []
    {
      this.id := id;
      this.cases := [];
    }

    /** `add_case(case_id, sequence)`: exactly one new row at the end, for this suite. */
    method AddCase(caseId: int, sequence: int)
      modifies this
      ensures |cases| == |old(cases)| + 1 && cases[..|old(cases)|] == old(cases)
      ensures fresh(cases[|cases| - 1])
      ensures cases[|cases| - 1].suiteId == id && cases[|cases| - 1].caseId == caseId && cases[|cases| - 1].sequence == sequence
      ensures id == old(id)
    {
      var row := new SuiteCase(id, caseId, sequence);
      cases := cases + [row];
    }
  }
}
