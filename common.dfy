/** Vocabulary shared by every controller and middleware of the bootcamp backend:
    optional request values and their JavaScript truthiness, the four user roles,
    the outcome of a middleware gate, the `Authorization` header parsing, the
    string operations the handlers use (`split(' ')`, `includes`, `replace`), and
    the database's generator of fresh row ids. */
module Common {

  datatype Option<+T> = None | Some(value: T)

  /** Row ids are the strings the database generates; request parameters carry them as text. */
  type Id = string

  /** Milliseconds since the epoch, the unit of `Date.now()`. */
  type Time = int

  /** JavaScript truthiness of a request value that is a string or absent (`undefined`/`null`):
      the empty string is falsy. */
  predicate Truthy(s: Option<string>) {
    s.Some? && s.value != ""
  }

  /** `a || b` on an optional string: the supplied value when it is truthy, the fallback otherwise. */
  function OrElse(s: Option<string>, fallback: string): (r: string)
    ensures Truthy(s) ==> r == s.value
    ensures !Truthy(s) ==> r == fallback
  {
    if Truthy(s) then s.value else fallback
  }

  // ---------------------------------------------------------------------------
  // Roles
  // ---------------------------------------------------------------------------

  const TRAINEE: string := "TRAINEE"
  const MENTOR: string := "MENTOR"
  const EXAMINER: string := "EXAMINER"
  const ADMIN: string := "ADMIN"

  /** The role enumeration of the user table, in the order createuser lists it. */
  const UserRoles: seq<string> := [TRAINEE, MENTOR, EXAMINER, ADMIN]

  /** The roles allowed to read, write and delete notes. */
  const GraderRoles: seq<string> := [MENTOR, EXAMINER, ADMIN]

  predicate IsGrader(role: string) {
    role in GraderRoles
  }

  // ---------------------------------------------------------------------------
  // Middleware outcome
  // ---------------------------------------------------------------------------

  /** A middleware either calls `next()` with what it attached to the request, or ends the
      request with a status code. */
  datatype Gate<+T> = Next(attached: T) | Halt(status: nat)

  /** What the `protect` gates attach to the request on success: the user's id and role. */
  datatype Principal = Principal(id: Id, role: string)

  // ---------------------------------------------------------------------------
  // Tokens (section 4.1 of RFC 7519 for the claims)
  // ---------------------------------------------------------------------------

  /** The two signing secrets of the environment: SECRET and REFRESH_SECRET. */
  datatype Secret = EnvSecret | EnvRefreshSecret

  /** The claims of a decoded token that the code reads; `exp` is in seconds since the epoch. */
  datatype Claims = Claims(id: Option<Id>, role: Option<string>, email: Option<string>, exp: Option<int>)

  /** The outcome of `jwt.verify(token, secret)`: the claims, or the two kinds of error the
      code tells apart (`TokenExpiredError` and every other error). */
  datatype Verdict = Verified(claims: Claims) | TokenExpired | TokenInvalid

  /** `jwt.verify`, an oracle of the model. */
  type Verifier = (Secret, string) -> Verdict

  /** `jwt.decode` (no signature check): None when the token is not a JWT. */
  type Decoder = string -> Option<Claims>

  /** The payloads the code signs. */
  datatype Payload = EmailRole(email: string, role: string) | IdRole(id: Id, role: string) | IdOnly(id: Id)

  /** `jwt.sign(payload, secret, { expiresIn })`, with the lifetime in seconds. */
  type Signer = (Secret, Payload, nat) -> string

  /** The `expiresIn` strings of the code, in seconds. */
  const FiveMinutes: nat := 300
  const FifteenMinutes: nat := 900
  const ThirtyMinutes: nat := 1800
  const SevenDays: nat := 604800
  const OneYear: nat := 31557600

  /** `!decoded.exp` is false: the claim is present and non-zero. */
  predicate HasExp(c: Claims) {
    c.exp.Some? && c.exp.value != 0
  }

  /** `decoded.exp * 1000 < Date.now()`: the token's expiry, in milliseconds, is in the past. */
  predicate ExpiredAt(exp: int, now: Time) {
    exp * 1000 < now
  }

  // ---------------------------------------------------------------------------
  // findMany / deleteMany on a table held in insertion order
  // ---------------------------------------------------------------------------

  /** The rows that satisfy a where clause, in table order. */
  function Filter<T(!new)>(rows: seq<T>, keep: T -> bool): (r: seq<T>)
    ensures |r| <= |rows|
    ensures forall x :: x in r <==> x in rows && keep(x)
  {
    if |rows| == 0 then []
    else
      assert rows == [rows[0]] + rows[1..];
      if keep(rows[0]) then [rows[0]] + Filter(rows[1..], keep)
    else Filter(rows[1..], keep)
  }

  /** A where clause every row satisfies selects the whole table. */
  lemma {:induction false} FilterKeepsAll<T(!new)>(rows: seq<T>, keep: T -> bool)
    requires forall x :: x in rows ==> keep(x)
    ensures Filter(rows, keep) == rows
  {
    if |rows| > 0 {
      assert rows[0] in rows;
      assert forall x :: x in rows[1..] ==> x in rows;
      FilterKeepsAll(rows[1..], keep);
      assert rows == [rows[0]] + rows[1..];
    }
  }

  /** No two rows share a key: the unique constraint on a column. */
  ghost predicate DistinctKeys<T, K>(rows: seq<T>, key: T -> K) {
    forall i, j :: 0 <= i < j < |rows| ==> key(rows[i]) != key(rows[j])
  }

  /** Removing rows keeps a unique column unique. */
  lemma {:induction false} FilterKeepsDistinct<T(!new), K>(rows: seq<T>, keep: T -> bool, key: T -> K)
    requires DistinctKeys(rows, key)
    ensures DistinctKeys(Filter(rows, keep), key)
    decreases |rows|
  {
    if |rows| > 0 {
      var tail := rows[1..];
      assert DistinctKeys(tail, key) by {
        forall i, j | 0 <= i < j < |tail| ensures key(tail[i]) != key(tail[j]) {
          assert tail[i] == rows[i + 1] && tail[j] == rows[j + 1];
        }
      }
      FilterKeepsDistinct(tail, keep, key);
      var rest := Filter(tail, keep);
      if keep(rows[0]) {
        var r := [rows[0]] + rest;
        assert Filter(rows, keep) == r;
        forall i, j | 0 <= i < j < |r| ensures key(r[i]) != key(r[j]) {
          if i == 0 {
            assert r[j] in rest;
            var k :| 0 <= k < |tail| && tail[k] == r[j];
            assert rows[k + 1] == r[j];
          } else {
            assert r[i] == rest[i - 1] && r[j] == rest[j - 1];
          }
        }
      }
    }
  }

  // ---------------------------------------------------------------------------
  // split(' ')
  // ---------------------------------------------------------------------------

  /** JavaScript `s.split(sep)` for a one-character separator: every separator ends a field,
      so consecutive separators produce empty fields. */
  function Split(s: string, sep: char): (fields: seq<string>)
    ensures |fields| >= 1
    ensures forall i :: 0 <= i < |fields| ==> sep !in fields[i]
    decreases |s|
  {
    if |s| == 0 then [""]
    else if s[0] == sep then [""] + Split(s[1..], sep)
    else
      var rest := Split(s[1..], sep);
      [[s[0]] + rest[0]] + rest[1..]
  }

  /** `fields.join(sep)`, the inverse of Split. */
  function Join(fields: seq<string>, sep: char): string
    requires |fields| >= 1
    decreases |fields|
  {
    if |fields| == 1 then fields[0] else fields[0] + [sep] + Join(fields[1..], sep)
  }

  /** Splitting loses nothing: joining the fields back with the separator gives the input. */
  lemma {:induction false} JoinSplit(s: string, sep: char)
    ensures Join(Split(s, sep), sep) == s
    decreases |s|
  {
    if |s| == 0 {
    } else if s[0] == sep {
      JoinSplit(s[1..], sep);
      var rest := Split(s[1..], sep);
      assert Split(s, sep) == [""] + rest;
      assert ([""] + rest)[1..] == rest;
    } else {
      JoinSplit(s[1..], sep);
      var rest := Split(s[1..], sep);
      var fields := [[s[0]] + rest[0]] + rest[1..];
      assert Split(s, sep) == fields;
      if |rest| == 1 {
        assert s == [s[0]] + s[1..];
      } else {
        assert fields[1..] == rest[1..];
        assert Join(rest, sep) == rest[0] + [sep] + Join(rest[1..], sep);
        assert s == [s[0]] + s[1..];
      }
    }
  }

  /** A word without the separator, followed by the separator, is the first field. */
  lemma {:induction false} SplitAfterWord(w: string, sep: char, t: string)
    requires sep !in w
    ensures Split(w + [sep] + t, sep) == [w] + Split(t, sep)
    decreases |w|
  {
    if |w| == 0 {
      assert w + [sep] + t == [sep] + t;
      assert ([sep] + t)[1..] == t;
    } else {
      SplitAfterWord(w[1..], sep, t);
      var s := w + [sep] + t;
      assert s[0] == w[0];
      assert s[1..] == w[1..] + [sep] + t;
      assert [w[0]] + w[1..] == w;
    }
  }

  // ---------------------------------------------------------------------------
  // The Authorization header
  // ---------------------------------------------------------------------------

  /** The literal scheme prefix the gates test with `startsWith`, case-sensitively
      (section 2.1 of RFC 6750 names the scheme "Bearer"). */
  const BearerPrefix: string := "Bearer "

  /** `authHeader.split(' ')[1]`, or None when that index does not exist. */
  function SecondField(header: string): (r: Option<string>)
    ensures r.Some? ==> ' ' !in r.value
  {
    var fields := Split(header, ' ');
    if |fields| >= 2 then Some(fields[1]) else None
  }

  /** The token of the gates in the Auth, Protect, VerifyRole and VerifyStatus middlewares:
      None when the header is absent (or empty) or does not start with "Bearer ";
      otherwise the second space-separated field. */
  function BearerToken(header: Option<string>): (token: Option<string>)
    ensures token.Some? <==> Truthy(header) && BearerPrefix <= header.value
    ensures token.Some? ==> ' ' !in token.value && BearerPrefix + token.value <= header.value
    ensures token.Some? ==> token == SecondField(header.value)
  {
    if !Truthy(header) || !(BearerPrefix <= header.value) then None
    else
      var h := header.value;
      var rest := h[|BearerPrefix|..];
      SplitAfterWord("Bearer", ' ', rest);
      assert h == "Bearer" + [' '] + rest;
      var t := Split(rest, ' ')[0];
      JoinSplit(rest, ' ');
      assert t <= rest by {
        var fs := Split(rest, ' ');
        if |fs| > 1 {
          assert rest == t + [' '] + Join(fs[1..], ' ');
        }
      }
      assert SecondField(h) == Some(t);
      SecondField(h)
  }

  /** `header?.split(' ')[1]` tested for truthiness, as the token-expiry checks do: no scheme
      test, just the second field, which must be non-empty. */
  function AccessTokenField(header: Option<string>): (token: Option<string>)
    ensures token.Some? ==> token.value != "" && ' ' !in token.value
    ensures token.Some? ==> header.Some? && SecondField(header.value) == token
    ensures header.Some? && Truthy(SecondField(header.value)) ==> token.Some?
  {
    if header.None? then None
    else
      var f := SecondField(header.value);
      if Truthy(f) then f else None
  }

  /** The id a Bearer token vouches for, as the gates obtain it: the header carries a Bearer
      token, the token verifies under the secret, and its claims carry an id. Any failure on
      the way ends in the gate's 401 (a missing id makes the user lookup throw). */
  function VerifiedId(header: Option<string>, verify: Verifier, secret: Secret): (id: Option<Id>)
    ensures id.Some? ==> BearerToken(header).Some? && verify(secret, BearerToken(header).value).Verified?
    ensures id.Some? ==> verify(secret, BearerToken(header).value).claims.id == id
    ensures (BearerToken(header).Some? && verify(secret, BearerToken(header).value).Verified? &&
             verify(secret, BearerToken(header).value).claims.id.Some?) ==> id.Some?
  {
    match BearerToken(header)
    case None => None
    case Some(token) =>
      match verify(secret, token)
      case Verified(claims) => claims.id
      case _ => None
  }

  // ---------------------------------------------------------------------------
  // includes / replace on strings
  // ---------------------------------------------------------------------------

  /** `pat` occurs in `text` starting at index `i`. */
  predicate OccursAt(text: string, pat: string, i: nat) {
    i + |pat| <= |text| && text[i..i + |pat|] == pat
  }

  /** `text.indexOf(pat)`: the first index where `pat` occurs, None for -1. */
  function IndexOf(text: string, pat: string): (r: Option<nat>)
    ensures r.Some? ==> OccursAt(text, pat, r.value)
    ensures r.Some? ==> forall j: nat :: j < r.value ==> !OccursAt(text, pat, j)
    ensures r.None? ==> forall j: nat :: !OccursAt(text, pat, j)
    decreases |text|
  {
    if |pat| > |text| then None
    else if text[..|pat|] == pat then Some(0)
    else
      var r := IndexOf(text[1..], pat);
      ShiftOccurrence(text, pat);
      assert !OccursAt(text, pat, 0);
      match r
      case None => None
      case Some(k) => Some(k + 1)
  }

  /** An occurrence in `text[1..]` at `j` is an occurrence in `text` at `j + 1`, and back. */
  lemma ShiftOccurrence(text: string, pat: string)
    requires |text| >= 1
    ensures forall j: nat :: OccursAt(text[1..], pat, j) <==> OccursAt(text, pat, j + 1)
    ensures forall j: nat :: 1 <= j ==> (OccursAt(text, pat, j) <==> OccursAt(text[1..], pat, j - 1))
  {
    forall j: nat
      ensures OccursAt(text[1..], pat, j) <==> OccursAt(text, pat, j + 1)
    {
      if j + |pat| <= |text| - 1 {
        assert text[1..][j..j + |pat|] == text[j + 1..j + 1 + |pat|];
      }
    }
    forall j: nat | 1 <= j
      ensures OccursAt(text, pat, j) <==> OccursAt(text[1..], pat, j - 1)
    {
      assert OccursAt(text[1..], pat, j - 1) <==> OccursAt(text, pat, (j - 1) + 1);
    }
  }

  /** JavaScript `text.includes(pat)` on a string: a substring test. */
  predicate Contains(text: string, pat: string) {
    IndexOf(text, pat).Some?
  }

  /** JavaScript `s.replace(pat, rep)` with a string pattern: only the FIRST occurrence is
      replaced. */
  function ReplaceFirst(s: string, pat: string, rep: string): (r: string)
    ensures IndexOf(s, pat).None? ==> r == s
    ensures IndexOf(s, pat).Some? ==> |r| == |s| - |pat| + |rep|
    ensures IndexOf(s, pat).Some? ==>
              var i := IndexOf(s, pat).value;
              r[..i] == s[..i] && r[i..i + |rep|] == rep && r[i + |rep|..] == s[i + |pat|..]
  {
    match IndexOf(s, pat)
    case None => s
    case Some(i) => s[..i] + rep + s[i + |pat|..]
  }

  /** What `allowedRoles.includes(role)` tests, depending on what the route passed:
      an array of roles (membership) or a single string (substring). */
  datatype RoleArg = RoleList(roles: seq<string>) | RoleText(text: string)

  predicate Includes(allowed: RoleArg, role: string) {
    match allowed
    case RoleList(roles) => role in roles
    case RoleText(text) => Contains(text, role)
  }

  /** For the four roles of the user table, the substring test that a single-string argument
      performs agrees with equality: no role name occurs inside another. */
  lemma RoleTextIsEquality(text: string, role: string)
    requires text in UserRoles && role in UserRoles
    ensures Includes(RoleText(text), role) <==> role == text
  {
    if role != text {
      // The first two letters of each role name (TR, ME, EX, AD) occur in no other role name.
      forall i: nat | i + |role| <= |text|
        ensures !OccursAt(text, role, i)
      {
        assert text[i] != role[0] || text[i + 1] != role[1];
      }
    } else {
      assert OccursAt(text, role, 0);
    }
  }

  // ---------------------------------------------------------------------------
  // Fresh ids
  // ---------------------------------------------------------------------------

  /** The database's default id generator: an id not yet used in the table. Modelled as a
      string longer than every id in use. */
  method FreshId(used: set<Id>) returns (id: Id)
    ensures id !in used
  {
    var rest := used;
    var longest: nat := 0;
    while rest != {}
      invariant rest <= used
      invariant forall u :: u in used && u !in rest ==> |u| <= longest
      decreases rest
    {
      var u :| u in rest;
      if |u| > longest {
        longest := |u|;
      }
      rest := rest - {u};
    }
    id := seq(longest + 1, _ => '0');
  }
}
