/** The bearer-token gate (middlewares/authenticateToken.js, repeated in
    routes/auth.js and server.js): take the second space-separated field of
    the Authorization header, answer 401 when it is missing or empty, 403
    when the provider rejects it, and otherwise record the decoded token on
    the request and pass it on exactly once. */
module TokenAuth {
  import opened Common
  import opened IdentityProvider

  /** `s.split(' ')`: the maximal space-free fields, empty ones included. */
  function Split(s: string): (parts: seq<string>)
    ensures |parts| >= 1
    ensures forall i :: 0 <= i < |parts| ==> ' ' !in parts[i]
  {
    if s == [] then [""]
    else
      var rest := Split(s[1..]);
      if s[0] == ' ' then [""] + rest
      else [[s[0]] + rest[0]] + rest[1..]
  }

  /** `parts.join(' ')`. */
  function Join(parts: seq<string>): string
    requires |parts| >= 1
  {
    if |parts| == 1 then parts[0] else parts[0] + " " + Join(parts[1..])
  }

  /** Joining the fields gives the header back. */
  lemma {:induction false} JoinSplit(s: string)
    ensures Join(Split(s)) == s
  {
    if s != [] {
      var rest := Split(s[1..]);
      JoinSplit(s[1..]);
      if s[0] == ' ' {
        assert Split(s) == [""] + rest;
        assert Split(s)[1..] == rest;
      } else {
        var parts := Split(s);
        assert parts == [[s[0]] + rest[0]] + rest[1..];
        if |rest| == 1 {
          assert parts == [[s[0]] + rest[0]];
        } else {
          assert parts[1..] == rest[1..];
          calc {
            Join(parts);
            ([s[0]] + rest[0]) + " " + Join(rest[1..]);
            [s[0]] + (rest[0] + " " + Join(rest[1..]));
            [s[0]] + Join(rest);
          }
        }
        assert s == [s[0]] + s[1..];
      }
    }
  }

  /** A space-free first word is the first field, and splitting goes on
      after the space that ends it. */
  lemma {:induction false} SplitAfterWord(w: string, s: string)
    requires ' ' !in w
    ensures Split(w + " " + s) == [w] + Split(s)
  {
    if w == [] {
      assert w + " " + s == " " + s;
      assert (" " + s)[1..] == s;
    } else {
      var h := w + " " + s;
      assert h[0] == w[0] && h[1..] == w[1..] + " " + s;
      SplitAfterWord(w[1..], s);
      assert [w[0]] + w[1..] == w;
    }
  }

  /** A space-free word followed by nothing or by a space is the first
      field. */
  lemma {:induction false} SplitWordEnd(t: string, rest: string)
    requires ' ' !in t
    requires rest == [] || rest[0] == ' '
    ensures Split(t + rest)[0] == t
  {
    if t == [] {
      assert t + rest == rest;
    } else {
      var h := t + rest;
      assert h[0] == t[0] && h[1..] == t[1..] + rest;
      SplitWordEnd(t[1..], rest);
      assert [t[0]] + t[1..] == t;
    }
  }

  /** A header without a space is a single field. */
  lemma {:induction false} SplitNoSpace(h: string)
    requires ' ' !in h
    ensures Split(h) == [h]
  {
    if h != [] {
      SplitNoSpace(h[1..]);
      assert [h[0]] + h[1..] == h;
    }
  }

  /** `authHeader && authHeader.split(' ')[1]`, read for truthiness: the
      token when that expression is a non-empty string. */
  function ExtractToken(header: Option<string>): Option<string>
  {
    match header
    case None => None
    case Some(h) =>
      var parts := Split(h);
      if |parts| >= 2 && parts[1] != "" then Some(parts[1]) else None
  }

  /** The token is the second field, whatever the first word is: a header
      "w t..." with a space-free first word w yields t (none when t is
      empty); "Bearer" is never checked. */
  lemma {:induction false} TokenIsSecondField(w: string, t: string, rest: string)
    requires ' ' !in w && ' ' !in t
    requires rest == [] || rest[0] == ' '
    ensures ExtractToken(Some(w + " " + t + rest)) == if t == "" then None else Some(t)
  {
    assert w + " " + t + rest == w + " " + (t + rest);
    SplitAfterWord(w, t + rest);
    SplitWordEnd(t, rest);
  }

  /** The shape of a header that yields a token. */
  ghost predicate CarriesToken(h: string, w: string, t: string, rest: string)
  {
    h == w + " " + t + rest && ' ' !in w && ' ' !in t && (rest == [] || rest[0] == ' ')
  }

  /** Conversely, a token comes only from a header of that shape, and is
      non-empty and space-free. */
  lemma {:induction false} TokenComesFromSecondField(h: string)
    requires ExtractToken(Some(h)).Some?
    ensures var t := ExtractToken(Some(h)).value;
      t != "" && ' ' !in t && exists w, rest :: CarriesToken(h, w, t, rest)
  {
    var parts := Split(h);
    var t := parts[1];
    JoinSplit(h);
    var rest := if |parts| == 2 then "" else " " + Join(parts[2..]);
    assert Join(parts[1..]) == t + rest by {
      assert parts[1..][0] == t;
      if |parts| > 2 {
        assert parts[1..][1..] == parts[2..];
      }
    }
    assert h == parts[0] + " " + t + rest;
    assert CarriesToken(h, parts[0], t, rest);
  }

  /** The 401 cases: no header, a header without a space, and a header whose
      second field is empty. */
  lemma {:induction false} MissingTokenCases(h: string, w: string, rest: string)
    requires ' ' !in w && (rest == [] || rest[0] == ' ')
    ensures ExtractToken(None).None?
    ensures ' ' !in h ==> ExtractToken(Some(h)).None?
    ensures ExtractToken(Some(w + " " + rest)).None?
  {
    if ' ' !in h {
      SplitNoSpace(h);
    }
    TokenIsSecondField(w, "", rest);
    assert w + " " + "" + rest == w + " " + rest;
  }

  /** How the gate ends: a response, or a call to `next` with the decoded
      token. */
  datatype Decision = Reject(out: Outcome) | Proceed(user: Claims)

  /** The gate's decision; `verdicts` holds the decoded token for each token
      the provider accepts. */
  function Authenticate(header: Option<string>, verdicts: map<string, Claims>): (d: Decision)
    ensures d == Reject(Unauthorized) <==> ExtractToken(header).None?
    ensures d == Reject(Forbidden) <==> ExtractToken(header).Some? && ExtractToken(header).value !in verdicts
    ensures d.Reject? ==> d.out == Unauthorized || d.out == Forbidden
    ensures d.Proceed? <==> ExtractToken(header).Some? && ExtractToken(header).value in verdicts
    ensures d.Proceed? ==> d.user == verdicts[ExtractToken(header).value]
  {
    match ExtractToken(header)
    case None => Reject(Unauthorized)
    case Some(token) =>
      if token in verdicts then Proceed(verdicts[token]) else Reject(Forbidden)
  }

  /** One request/response exchange as the middleware sees it. */
  class Exchange {
    const header: Option<string>
    var user: Option<Claims>
    var response: Option<Outcome>
    var nextCalls: nat

    constructor(header: Option<string>)
      ensures this.header == header
      ensures user.None? && response.None? && nextCalls == 0
    {
      this.header := header;
      user := None;
      response := None;
      nextCalls := 0;
    }
  }

  /** The middleware: either sends 401/403 and leaves `req.user` and `next`
      alone, or sets `req.user` to the decoded token and calls `next` once. */
  method AuthenticateToken(ex: Exchange, verdicts: map<string, Claims>)
    modifies ex
    ensures match Authenticate(ex.header, verdicts)
      case Reject(out) =>
        ex.response == Some(out) && ex.user == old(ex.user) && ex.nextCalls == old(ex.nextCalls)
      case Proceed(claims) =>
        ex.user == Some(claims) && ex.response == old(ex.response) && ex.nextCalls == old(ex.nextCalls) + 1
  {
    var token := ExtractToken(ex.header);
    if token.None? {
      ex.response := Some(Unauthorized);
      return;
    }
    if token.value in verdicts {
      ex.user := Some(verdicts[token.value]);
      ex.nextCalls := ex.nextCalls + 1;
    } else {
      ex.response := Some(Forbidden);
    }
  }
}
