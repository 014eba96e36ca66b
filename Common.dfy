/** Shared vocabulary of the model: optional values, the HTTP outcome a
    handler ends with, JavaScript truthiness of payload strings, and the two
    sequence queries every store uses (select in store order, find the first
    match). */
module Common {

  datatype Option<T> = None | Some(value: T)

  /** Dates are opaque instants supplied by the caller. */
  type Timestamp = nat

  /** The kind of response a handler sends: 200, 201, 400, 401, 403, 404
      and 500 in that order. */
  datatype Outcome = Ok | Created | BadRequest | Unauthorized | Forbidden | NotFound | ServerError

  /** `!x` is false for a payload string field exactly when the field is
      present and not the empty string (None stands for undefined or null). */
  predicate Present(o: Option<string>)
  {
    o.Some? && o.value != ""
  }

  /** The elements of `s` that satisfy `p`, in store order (a `find` with an
      equality filter). */
  function Where<T(==,!new)>(s: seq<T>, p: T -> bool): (r: seq<T>)
    ensures |r| <= |s|
    ensures forall x :: multiset(r)[x] == if p(x) then multiset(s)[x] else 0
    ensures forall x :: x in r <==> x in s && p(x)
  {
    if s == [] then []
    else
      assert s == [s[0]] + s[1..];
      var rest := Where(s[1..], p);
      if p(s[0]) then [s[0]] + rest else rest
  }

  /** Selection distributes over concatenation, so the result keeps the
      relative order of the store. */
  lemma {:induction false} WhereAppend<T(!new)>(s: seq<T>, t: seq<T>, p: T -> bool)
    ensures Where(s + t, p) == Where(s, p) + Where(t, p)
  {
    if s == [] {
      assert s + t == t;
    } else {
      var u := s + t;
      assert u[0] == s[0] && u[1..] == s[1..] + t;
      WhereAppend(s[1..], t, p);
      if p(s[0]) {
        calc {
          Where(u, p);
          [s[0]] + Where(s[1..] + t, p);
          [s[0]] + (Where(s[1..], p) + Where(t, p));
          ([s[0]] + Where(s[1..], p)) + Where(t, p);
        }
      }
    }
  }

  /** The position of the first element satisfying `p` (a `findOne`). */
  function FirstIndex<T>(s: seq<T>, p: T -> bool): (r: Option<nat>)
    ensures r.Some? ==> r.value < |s| && p(s[r.value])
    ensures r.Some? ==> forall j :: 0 <= j < r.value ==> !p(s[j])
    ensures r.None? <==> forall j :: 0 <= j < |s| ==> !p(s[j])
  {
    if s == [] then None
    else if p(s[0]) then Some(0)
    else
      match FirstIndex(s[1..], p)
      case None => None
      case Some(i) => Some(i + 1)
  }

  /** `s` with position `i` removed. */
  function Without<T>(s: seq<T>, i: nat): (r: seq<T>)
    requires i < |s|
    ensures |r| == |s| - 1
    ensures forall j :: 0 <= j < i ==> r[j] == s[j]
    ensures forall j :: i <= j < |r| ==> r[j] == s[j + 1]
  {
    s[..i] + s[i + 1..]
  }
}
