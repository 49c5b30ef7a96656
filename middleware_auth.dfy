/**
 * The authentication middleware: it reads the Authorization header, splits it
 * on single spaces, insists on exactly two parts with the scheme "bearer" in
 * any letter case, validates the token, and forwards the request with the
 * user id stored in its context.
 */
module Middleware {
  import opened Wrappers
  import opened Jwt
  import opened Http

  /** The number of occurrences of c in s. */
  function Count(s: string, c: char): nat {
    if s == [] then 0 else Count(s[..|s| - 1], c) + (if s[|s| - 1] == c then 1 else 0)
  }

  /**
   * strings.Split with a one-character separator: the pieces between
   * separators, empty ones included, so there is always at least one.
   */
  function Split(s: string, sep: char): (parts: seq<string>)
    ensures |parts| == Count(s, sep) + 1
    ensures forall i :: 0 <= i < |parts| ==> sep !in parts[i]
  {
    if s == [] then [[]]
    else
      var init := Split(s[..|s| - 1], sep);
      if s[|s| - 1] == sep then init + [[]]
      else init[..|init| - 1] + [init[|init| - 1] + [s[|s| - 1]]]
  }

  /** strings.Join: the inverse of Split. */
  function Join(parts: seq<string>, sep: char): string
    requires parts != []
  {
    if |parts| == 1 then parts[0] else Join(parts[..|parts| - 1], sep) + [sep] + parts[|parts| - 1]
  }

  lemma {:induction false} JoinSplit(s: string, sep: char)
    ensures Join(Split(s, sep), sep) == s
  {
    if s != [] {
      var init := Split(s[..|s| - 1], sep);
      JoinSplit(s[..|s| - 1], sep);
      var last := s[|s| - 1];
      if last == sep {
        assert Split(s, sep)[..|init|] == init;
      } else {
        var parts := Split(s, sep);
        var pre := init[..|init| - 1];
        if |init| == 1 {
          assert s == s[..|s| - 1] + [last];
        } else {
          assert parts[..|parts| - 1] == pre == init[..|init| - 1];
          assert Join(init, sep) == Join(pre, sep) + [sep] + init[|init| - 1];
          assert s == s[..|s| - 1] + [last];
        }
      }
    }
  }

  /** A header splits into exactly two parts iff it holds exactly one space, and then it is scheme, space, token. */
  lemma TwoParts(s: string)
    ensures |Split(s, ' ')| == 2 <==> Count(s, ' ') == 1
    ensures |Split(s, ' ')| == 2 ==> s == Split(s, ' ')[0] + " " + Split(s, ' ')[1]
  {
    if |Split(s, ' ')| == 2 {
      JoinSplit(s, ' ');
      var parts := Split(s, ' ');
      assert Join(parts, ' ') == Join(parts[..1], ' ') + [' '] + parts[1];
    }
  }

  lemma {:induction false} CountAbsent(s: string, c: char)
    requires c !in s
    ensures Count(s, c) == 0
  {
    if s != [] {
      assert c !in s[..|s| - 1];
      CountAbsent(s[..|s| - 1], c);
    }
  }

  lemma {:induction false} SplitPrefix(a: string, b: string, sep: char)
    requires sep !in b
    ensures Split(a + [sep] + b, sep) == Split(a, sep) + [b]
    decreases |b|
  {
    if b == [] {
      assert (a + [sep] + b)[..|a + [sep] + b| - 1] == a;
    } else {
      var s := a + [sep] + b;
      var b' := b[..|b| - 1];
      assert s[..|s| - 1] == a + [sep] + b';
      assert sep !in b';
      SplitPrefix(a, b', sep);
      var init := Split(s[..|s| - 1], sep);
      assert init == Split(a, sep) + [b'];
      assert s[|s| - 1] == b[|b| - 1] != sep;
      assert init[..|init| - 1] == Split(a, sep);
      assert b' + [b[|b| - 1]] == b;
    }
  }

  lemma SplitNoSep(s: string, sep: char)
    requires sep !in s
    ensures Split(s, sep) == [s]
  {
    CountAbsent(s, sep);
    JoinSplit(s, sep);
  }

  /** Splitting "scheme token" with no spaces inside either part gives back the two parts. */
  lemma SplitBearer(scheme: string, token: string)
    requires ' ' !in scheme && ' ' !in token
    ensures Split(scheme + " " + token, ' ') == [scheme, token]
  {
    SplitPrefix(scheme, token, ' ');
    SplitNoSep(scheme, ' ');
  }

  /** ASCII lower-casing of one character. */
  function Lower(c: char): char {
    if 'A' <= c <= 'Z' then (c as int - 'A' as int + 'a' as int) as char else c
  }

  function ToLower(s: string): (r: string)
    ensures |r| == |s|
    ensures forall i :: 0 <= i < |s| ==> r[i] == Lower(s[i])
    ensures forall i :: 0 <= i < |r| ==> !('A' <= r[i] <= 'Z')
    ensures forall i :: 0 <= i < |s| && !('A' <= s[i] <= 'Z') ==> r[i] == s[i]
  {
    seq(|s|, i requires 0 <= i < |s| => Lower(s[i]))
  }

  /** The characters that lower-case to a given lower-case ASCII letter: itself and its capital. */
  lemma LowerInverse(c: char, l: char)
    requires 'a' <= l <= 'z'
    ensures Lower(c) == l <==> c == l || c as int == l as int - 32
  {
  }

  /** The scheme test accepts exactly the six-letter spellings of "bearer" in any letter case. */
  lemma SchemeAccepted(p: string)
    ensures ToLower(p) == "bearer" <==>
      |p| == 6 &&
      (p[0] == 'b' || p[0] == 'B') && (p[1] == 'e' || p[1] == 'E') && (p[2] == 'a' || p[2] == 'A') &&
      (p[3] == 'r' || p[3] == 'R') && (p[4] == 'e' || p[4] == 'E') && (p[5] == 'r' || p[5] == 'R')
  {
    if |p| == 6 {
      LowerInverse(p[0], 'b');
      LowerInverse(p[1], 'e');
      LowerInverse(p[2], 'a');
      LowerInverse(p[3], 'r');
      LowerInverse(p[4], 'e');
      LowerInverse(p[5], 'r');
      LowerSix(p, "bearer");
    }
  }

  lemma LowerSix(p: string, w: string)
    requires |p| == 6 == |w|
    ensures ToLower(p) == w <==>
      Lower(p[0]) == w[0] && Lower(p[1]) == w[1] && Lower(p[2]) == w[2] &&
      Lower(p[3]) == w[3] && Lower(p[4]) == w[4] && Lower(p[5]) == w[5]
  {
    var r := ToLower(p);
    assert r == [r[0], r[1], r[2], r[3], r[4], r[5]];
    assert w == [w[0], w[1], w[2], w[3], w[4], w[5]];
  }

  /** What the middleware does with a request: refuse it with a status and message, forward it, or crash. */
  datatype Gate = Reject(status: int, message: string) | Forward(ctx: Context) | Crash

  /**
   * AuthMiddleware applied to one request. The compact token decoding is the
   * parameter decode; the secret and the clock reading are parameters too.
   */
  function Authenticate(header: string, ctx: Context, secret: string, now: int,
                        decode: string -> Option<Token>): (g: Gate)
    ensures header == "" ==> g == Reject(StatusUnauthorized, "Missing authorization header")
    ensures g.Forward? ==>
      Count(header, ' ') == 1 && ToLower(Split(header, ' ')[0]) == "bearer" &&
      ValidateJWT(decode(Split(header, ' ')[1]), secret, now) == Returned(GetUserIDFromContext(g.ctx).userId, None) &&
      g.ctx == ctx[UserIdKey := IntValue(GetUserIDFromContext(g.ctx).userId)]
    ensures g.Crash? ==> Count(header, ' ') == 1 && ValidateJWT(decode(Split(header, ' ')[1]), secret, now).Panicked?
    ensures g.Reject? ==> g.status == StatusUnauthorized
    // a non-bearer scheme is refused as an invalid header
    ensures header != "" && Count(header, ' ') == 1 && ToLower(Split(header, ' ')[0]) != "bearer" ==>
      g == Reject(StatusUnauthorized, "Invalid authorization header")
    // a bearer header whose token fails validation is refused as an invalid token
    ensures (Count(header, ' ') == 1 && ToLower(Split(header, ' ')[0]) == "bearer" &&
             ValidateJWT(decode(Split(header, ' ')[1]), secret, now).Returned? &&
             ValidateJWT(decode(Split(header, ' ')[1]), secret, now).err.Some?) ==>
      g == Reject(StatusUnauthorized, "Invalid token")
    // a bearer header whose token makes the validator panic crashes the request
    ensures (Count(header, ' ') == 1 && ToLower(Split(header, ' ')[0]) == "bearer" &&
             ValidateJWT(decode(Split(header, ' ')[1]), secret, now).Panicked?) ==>
      g == Crash
    // a bearer header whose token validates is forwarded with the token's user id
    ensures (Count(header, ' ') == 1 && ToLower(Split(header, ' ')[0]) == "bearer" &&
             ValidateJWT(decode(Split(header, ' ')[1]), secret, now).Returned? &&
             ValidateJWT(decode(Split(header, ' ')[1]), secret, now).err.None?) ==>
      g == Forward(ctx[UserIdKey := IntValue(ValidateJWT(decode(Split(header, ' ')[1]), secret, now).userId)])
  {
    if header == "" then Reject(StatusUnauthorized, "Missing authorization header")
    else
      var parts := Split(header, ' ');
      TwoParts(header);
      if |parts| != 2 || ToLower(parts[0]) != "bearer" then
        Reject(StatusUnauthorized, "Invalid authorization header")
      else match ValidateJWT(decode(parts[1]), secret, now)
        case Panicked => Crash
        case Returned(userId, err) =>
          if err.Some? then Reject(StatusUnauthorized, "Invalid token")
          else Forward(ctx[UserIdKey := IntValue(userId)])
  }

  /** A header with no space, or more than one, is refused before any token is looked at. */
  lemma BadShapeRefused(header: string, ctx: Context, secret: string, now: int, decode: string -> Option<Token>)
    requires header != "" && Count(header, ' ') != 1
    ensures Authenticate(header, ctx, secret, now, decode) == Reject(StatusUnauthorized, "Invalid authorization header")
  {
    TwoParts(header);
  }

  /**
   * End to end: "Bearer <token>" carrying a token that GenerateJWT issued with
   * the same secret less than a day ago is forwarded, and the handler behind
   * reads back the user the token was issued for.
   */
  lemma IssuedTokenForwarded(scheme: string, token: string, ctx: Context, secret: string,
                             issued: int, now: int, userId: int, decode: string -> Option<Token>)
    requires ToLower(scheme) == "bearer" && ' ' !in token
    requires decode(token) == Some(GenerateJWT(userId, secret, issued))
    requires now <= issued + Lifetime
    ensures Authenticate(scheme + " " + token, ctx, secret, now, decode) == Forward(ctx[UserIdKey := IntValue(userId)])
    ensures GetUserIDFromContext(Authenticate(scheme + " " + token, ctx, secret, now, decode).ctx) == Lookup(userId, None)
  {
    SchemeAccepted(scheme);
    SplitBearer(scheme, token);
  }

  /** A forwarded request always carries a user id that the handlers can read. */
  lemma ForwardedHasUser(header: string, ctx: Context, secret: string, now: int, decode: string -> Option<Token>)
    requires Authenticate(header, ctx, secret, now, decode).Forward?
    ensures GetUserIDFromContext(Authenticate(header, ctx, secret, now, decode).ctx).err.None?
  {
  }
}
