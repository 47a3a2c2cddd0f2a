/** Authentication of the second iteration: the Authorization header parser
    and outcome of src/middleware/checkToken.js, and the admin gate of
    src/middleware/checkAdmin.js built on it. Token verification is a
    parameter: it yields the payload, or nothing when the token is refused. */
module TokenB {
  import opened Common

  /** `s.split(' ')`: the pieces between single spaces, empty ones included. */
  function Split(s: string): (parts: seq<string>)
    ensures |parts| >= 1
    ensures forall i :: 0 <= i < |parts| ==> ' ' !in parts[i]
  {
    if |s| == 0 then [""]
    else
      var rest := Split(s[1..]);
      if s[0] == ' ' then [""] + rest
      else [[s[0]] + rest[0]] + rest[1..]
  }

  /** `parts.join(' ')`. */
  function Join(parts: seq<string>): string
  {
    if |parts| == 0 then ""
    else if |parts| == 1 then parts[0]
    else parts[0] + " " + Join(parts[1..])
  }

  /** Joining the pieces with the separator gives the string back. */
  lemma {:induction false} JoinSplit(s: string)
    ensures Join(Split(s)) == s
  {
    if |s| > 0 {
      JoinSplit(s[1..]);
      var rest := Split(s[1..]);
      if s[0] == ' ' {
        assert [""] + rest == [""] + rest;
        assert Join([""] + rest) == "" + " " + Join(rest) by {
          assert ([""] + rest)[1..] == rest;
        }
      } else if |rest| == 1 {
        assert s == [s[0]] + s[1..];
      } else {
        var parts := [[s[0]] + rest[0]] + rest[1..];
        assert parts[1..] == rest[1..];
        assert Join(rest) == rest[0] + " " + Join(rest[1..]);
        assert s == [s[0]] + s[1..];
      }
    }
  }

  /** Splitting pieces without spaces, joined by single spaces, gives them back. */
  lemma {:induction false} SplitJoin(parts: seq<string>)
    requires |parts| >= 1
    requires forall i :: 0 <= i < |parts| ==> ' ' !in parts[i]
    ensures Split(Join(parts)) == parts
    decreases |parts|, |parts[0]|
  {
    if |parts| == 1 {
      SplitWord(parts[0]);
    } else if |parts[0]| == 0 {
      SplitJoin(parts[1..]);
      assert Join(parts) == " " + Join(parts[1..]);
      assert (" " + Join(parts[1..]))[1..] == Join(parts[1..]);
      assert [""] + parts[1..] == parts;
    } else {
      var head := parts[0];
      var shorter := [head[1..]] + parts[1..];
      assert forall i :: 1 <= i < |shorter| ==> shorter[i] == parts[i];
      assert ' ' !in head[1..] by {
        forall c | c in head[1..] ensures c != ' ' {
          var i :| 0 <= i < |head[1..]| && head[1..][i] == c;
          assert head[i + 1] == c;
        }
      }
      SplitJoin(shorter);
      assert shorter[1..] == parts[1..];
      assert Join(parts) == [head[0]] + Join(shorter);
      assert Join(parts)[1..] == Join(shorter);
      assert [head[0]] + head[1..] == head;
    }
  }

  /** A word without spaces splits into itself. */
  lemma {:induction false} SplitWord(w: string)
    requires ' ' !in w
    ensures Split(w) == [w]
  {
    if |w| > 0 {
      assert ' ' !in w[1..] by {
        forall c | c in w[1..] ensures c != ' ' {
          var i :| 0 <= i < |w[1..]| && w[1..][i] == c;
          assert w[i + 1] == c;
        }
      }
      SplitWord(w[1..]);
      assert w[0] != ' ' by { assert w[0] in w; }
      assert [w[0]] + w[1..] == w;
    }
  }

  /** The token of an `Authorization` value: exactly two pieces, the first `Bearer`. */
  function BearerToken(auth: string): Option<string>
  {
    var parts := Split(auth);
    if |parts| != 2 || parts[0] != "Bearer" then None else Some(parts[1])
  }

  /** A header yields token `t` exactly when it is `Bearer`, one space, and
      a `t` without spaces. */
  lemma BearerTokenIff(auth: string, t: string)
    ensures BearerToken(auth) == Some(t) <==> auth == "Bearer " + t && ' ' !in t
  {
    if BearerToken(auth) == Some(t) {
      JoinSplit(auth);
      var parts := Split(auth);
      assert parts == ["Bearer", t];
      assert Join(parts) == "Bearer" + " " + Join(parts[1..]);
      assert parts[1..] == [t];
      assert "Bearer" + " " + t == "Bearer " + t;
    }
    if auth == "Bearer " + t && ' ' !in t {
      assert ' ' !in "Bearer";
      SplitJoin(["Bearer", t]);
      assert Join(["Bearer", t]) == "Bearer" + " " + Join(["Bearer", t][1..]);
      assert ["Bearer", t][1..] == [t];
      assert "Bearer" + " " + t == auth;
    }
  }

  /** A header carries some token exactly when it has the `Bearer t` form. */
  lemma BearerTokenSome(auth: string)
    ensures BearerToken(auth).Some? <==> exists t :: auth == "Bearer " + t && ' ' !in t
    ensures forall t :: auth == "Bearer " + t && ' ' !in t ==> BearerToken(auth) == Some(t)
  {
    forall t | auth == "Bearer " + t && ' ' !in t
      ensures BearerToken(auth) == Some(t)
    {
      BearerTokenIff(auth, t);
    }
    if BearerToken(auth).Some? {
      BearerTokenIff(auth, BearerToken(auth).value);
    }
  }

  /** Lower-case `bearer`, a doubled space, and a bare token are all malformed. */
  lemma MalformedHeaders(t: string)
    ensures BearerToken("bearer " + t).None?
    ensures BearerToken("Bearer  " + t).None?
    ensures ' ' !in t ==> BearerToken(t).None?
  {
    forall u
      ensures BearerToken("bearer " + t) != Some(u)
      ensures BearerToken("Bearer  " + t) != Some(u)
      ensures ' ' !in t ==> BearerToken(t) != Some(u)
    {
      BearerTokenIff("bearer " + t, u);
      BearerTokenIff("Bearer  " + t, u);
      BearerTokenIff(t, u);
      assert ("Bearer " + u)[0] == 'B' && ("bearer " + t)[0] == 'b';
      assert ("Bearer " + u)[6] == ' ';
      assert ("Bearer  " + t)[7] == ' ';
      if |u| > 0 {
        assert ("Bearer " + u)[7] == u[0] && u[0] in u;
      }
    }
  }

  /** JavaScript truthiness of a payload value (`undefined` is None). */
  predicate Truthy(v: Option<Json>)
  {
    v.Some? &&
    match v.value
    case JNull => false
    case JBool(b) => b
    case JNumber(n) => n != 0.0
    case JString(s) => s != ""
  }

  /** What a middleware does: call `next` with what it put on the request, or answer. */
  datatype Outcome = Pass(user: Body, isAdmin: Option<Json>) | Reject(status: int, message: string)

  /** `req.headers['authorization'] || req.headers['Authorization']`: the
      first of the two that is present and non-empty. */
  function AuthorizationHeader(headers: map<string, string>): (r: Option<string>)
    ensures r.Some? ==> r.value != ""
    ensures r.None? <==>
      ("authorization" !in headers || headers["authorization"] == "")
      && ("Authorization" !in headers || headers["Authorization"] == "")
    ensures "authorization" in headers && headers["authorization"] != "" ==> r == Some(headers["authorization"])
  {
    if "authorization" in headers && headers["authorization"] != "" then Some(headers["authorization"])
    else if "Authorization" in headers && headers["Authorization"] != "" then Some(headers["Authorization"])
    else None
  }

  /** `checkToken`. `verify` stands for `jwt.verify` with the server secret. */
  function CheckToken(headers: map<string, string>, verify: string -> Option<Body>): (o: Outcome)
    ensures AuthorizationHeader(headers).None? ==> o == Reject(401, "No token provided")
    ensures (AuthorizationHeader(headers).Some? && BearerToken(AuthorizationHeader(headers).value).None?)
              ==> o == Reject(401, "Token malformed")
    // Only the second piece of the header is handed to verification.
    ensures (AuthorizationHeader(headers).Some? && BearerToken(AuthorizationHeader(headers).value).Some?
             && verify(BearerToken(AuthorizationHeader(headers).value).value).None?)
              ==> o == Reject(401, "Invalid token")
    ensures o.Pass? <==> exists t :: AuthorizationHeader(headers) == Some("Bearer " + t) && ' ' !in t && verify(t).Some?
    ensures o.Pass? ==>
      var t := BearerToken(AuthorizationHeader(headers).value).value;
      verify(t).Some? && o.user == verify(t).value && o.isAdmin == Lookup(o.user, "isAdmin")
  {
    var auth := AuthorizationHeader(headers);
    if auth.None? then Reject(401, "No token provided")
    else
      var token := BearerToken(auth.value);
      BearerTokenSome(auth.value);
      BearerTokenIff(auth.value, if token.Some? then token.value else "");
      if token.None? then Reject(401, "Token malformed")
      else
        var payload := verify(token.value);
        if payload.None? then Reject(401, "Invalid token")
        else Pass(payload.value, Lookup(payload.value, "isAdmin"))
  }

  /** `checkAdmin`: the token check first; its refusal stands. */
  function CheckAdmin(headers: map<string, string>, verify: string -> Option<Body>): (o: Outcome)
    ensures CheckToken(headers, verify).Reject? ==> o == CheckToken(headers, verify)
    ensures (CheckToken(headers, verify).Pass? && !Truthy(CheckToken(headers, verify).isAdmin))
              ==> o == Reject(403, "Admin access required")
    // Admin status is read from the token alone: the database is not consulted.
    ensures o.Pass? <==> CheckToken(headers, verify).Pass? && Truthy(Lookup(CheckToken(headers, verify).user, "isAdmin"))
    ensures o.Pass? ==> o == CheckToken(headers, verify)
  {
    var checked := CheckToken(headers, verify);
    if checked.Reject? then checked
    else if !Truthy(checked.isAdmin) then Reject(403, "Admin access required")
    else checked
  }
}
