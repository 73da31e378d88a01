/**
 * Values and helpers shared by every part of the backend model: optional
 * values, identifiers, the ObjectId string format, the array operations
 * Mongoose offers on document arrays ($addToSet, pull, find), and the
 * JavaScript string primitives the handlers rely on (startsWith, trim,
 * the default string sort).
 */
module Common {

  datatype Option<T> = None | Some(value: T)

  /** Identifiers are the hexadecimal strings of Mongo ObjectIds. */
  type UserId = string
  type PostId = string
  type CommentId = string
  type MessageId = string
  type ConversationId = string

  predicate IsHexDigit(c: char) {
    ('0' <= c <= '9') || ('a' <= c <= 'f') || ('A' <= c <= 'F')
  }

  /** What ObjectId.isValid accepts for a string, and what casting a string to an ObjectId does not reject. */
  predicate IsObjectId(s: string) {
    |s| == 24 && forall i :: 0 <= i < |s| ==> IsHexDigit(s[i])
  }

  /** The hex digit an ObjectId prints: upper-case A-F become lower-case. */
  function LowerHexDigit(c: char): (r: char)
    ensures IsHexDigit(c) ==> IsHexDigit(r) && !('A' <= r <= 'F')
    ensures !('A' <= c <= 'F') ==> r == c
  {
    if 'A' <= c <= 'F' then (c as int + 32) as char else c
  }

  /** The string form of the ObjectId a valid id casts to: its hex digits in lower case. */
  function Canonical(s: string): (r: string)
    ensures |r| == |s|
    ensures IsObjectId(s) ==> IsObjectId(r)
    ensures forall i :: 0 <= i < |s| && !('A' <= s[i] <= 'F') ==> r[i] == s[i]
    ensures forall i :: 0 <= i < |s| && 'A' <= s[i] <= 'F' ==> r[i] as int == s[i] as int + 32
  {
    seq(|s|, i requires 0 <= i < |s| => LowerHexDigit(s[i]))
  }

  /** Printing a cast id and casting it again changes nothing. */
  lemma CanonicalIdempotent(s: string)
    ensures Canonical(Canonical(s)) == Canonical(s)
  {
  }

  /** JavaScript truthiness of an optional string: absent and "" are falsy. */
  predicate Truthy(s: Option<string>) {
    s.Some? && s.value != ""
  }

  /**
   * The outcome of `jwt.verify`, which the model treats as opaque: the decoded
   * payload's `userId` claim (absent when the claim is missing or null), or the
   * `name` of the error it throws.
   */
  datatype JwtOutcome = Decoded(userId: Option<string>) | JwtFailure(name: string)

  predicate StartsWith(s: string, prefix: string) {
    |prefix| <= |s| && s[..|prefix|] == prefix
  }

  predicate EndsWith(s: string, suffix: string) {
    |suffix| <= |s| && s[|s| - |suffix|..] == suffix
  }

  /** Mongoose `$addToSet` / `addToSet`: append x unless it is already present. */
  function AddToSet<T(==,!new)>(s: seq<T>, x: T): (r: seq<T>)
    ensures x in r
    ensures forall y :: y in r <==> y in s || y == x
    ensures x in s ==> r == s
    ensures x !in s ==> r == s + [x]
  {
    if x in s then s else s + [x]
  }

  /** `$addToSet` keeps an array free of duplicates. */
  lemma AddToSetKeepsDistinct<T(!new)>(s: seq<T>, x: T)
    requires Distinct(s)
    ensures Distinct(AddToSet(s, x))
  {
    if x !in s {
      var r := s + [x];
      forall i, j | 0 <= i < j < |r| ensures r[i] != r[j] {
        if j == |s| {
          assert r[i] == s[i];
        } else {
          assert r[i] == s[i] && r[j] == s[j];
        }
      }
    }
  }

  /** Mongoose array `pull(x)`: remove every occurrence of x, keeping the order of the rest. */
  function Pull<T(==,!new)>(s: seq<T>, x: T): (r: seq<T>)
    ensures x !in r
    ensures forall y :: y in r <==> y in s && y != x
    ensures |r| <= |s|
    ensures x in s ==> |r| < |s|
    ensures x !in s ==> r == s
  {
    if s == [] then []
    else if s[0] == x then Pull(s[1..], x)
    else [s[0]] + Pull(s[1..], x)
  }

  /** No element occurs twice. */
  ghost predicate Distinct<T>(s: seq<T>) {
    forall i, j :: 0 <= i < j < |s| ==> s[i] != s[j]
  }

  /** Pulling from an array without duplicates leaves one without duplicates. */
  lemma {:induction false} PullKeepsDistinct<T(!new)>(s: seq<T>, x: T)
    requires Distinct(s)
    ensures Distinct(Pull(s, x))
    decreases |s|
  {
    if s != [] {
      PullKeepsDistinct(s[1..], x);
      if s[0] != x {
        var rest := Pull(s[1..], x);
        assert s[0] !in s[1..] by {
          forall k | 0 <= k < |s[1..]| ensures s[1..][k] != s[0] {
            assert s[1..][k] == s[k + 1];
          }
        }
        assert s[0] !in rest;
        var r := [s[0]] + rest;
        forall i, j | 0 <= i < j < |r| ensures r[i] != r[j] {
          if i == 0 {
            assert r[j] == rest[j - 1];
          } else {
            assert r[i] == rest[i - 1] && r[j] == rest[j - 1];
          }
        }
      }
    }
  }

  /** The toggle keeps an array free of duplicates: x is appended only when absent. */
  lemma ToggleKeepsDistinct<T(!new)>(s: seq<T>, x: T)
    requires Distinct(s)
    ensures Distinct(Toggle(s, x))
  {
    if x in s {
      PullKeepsDistinct(s, x);
    } else {
      var r := s + [x];
      forall i, j | 0 <= i < j < |r| ensures r[i] != r[j] {
        if j == |s| {
          assert r[i] == s[i];
        } else {
          assert r[i] == s[i] && r[j] == s[j];
        }
      }
    }
  }

  /** The like/follow toggle on a document array: pull x when present, push it otherwise. */
  function Toggle<T(==,!new)>(s: seq<T>, x: T): (r: seq<T>)
    ensures x in r <==> x !in s
    ensures forall y :: y != x ==> (y in r <==> y in s)
    ensures x !in s ==> |r| == |s| + 1 && r[..|s|] == s
    ensures x in s ==> |r| < |s|
  {
    if x in s then Pull(s, x) else s + [x]
  }

  /** Toggling twice restores membership (the order of the others is kept by Pull, so x may move to the end). */
  lemma ToggleTwice<T(!new)>(s: seq<T>, x: T)
    ensures forall y :: y in Toggle(Toggle(s, x), x) <==> y in s
  {
  }

  /** Array `find(id => id !== x)`: the first element different from x, if any. */
  function FirstOther<T(==)>(s: seq<T>, x: T): (r: Option<T>)
    ensures r.None? <==> forall i :: 0 <= i < |s| ==> s[i] == x
    ensures r.Some? ==> r.value != x && exists i :: 0 <= i < |s| && s[i] == r.value && forall j :: 0 <= j < i ==> s[j] == x
  {
    if s == [] then None
    else if s[0] != x then Some(s[0])
    else
      var rest := FirstOther(s[1..], x);
      if rest.Some? then
        ghost var i :| 0 <= i < |s[1..]| && s[1..][i] == rest.value && forall j :: 0 <= j < i ==> s[1..][j] == x;
        assert s[i + 1] == rest.value && forall j :: 0 <= j < i + 1 ==> s[j] == x;
        rest
      else rest
  }

  /** Code-point lexicographic order: the order JavaScript's default `sort` puts strings in. */
  predicate LexLeq(a: string, b: string)
    decreases |a|
  {
    a == [] || (b != [] && (a[0] < b[0] || (a[0] == b[0] && LexLeq(a[1..], b[1..]))))
  }

  lemma {:induction false} LexLeqTotal(a: string, b: string)
    ensures LexLeq(a, b) || LexLeq(b, a)
    decreases |a|
  {
    if a != [] && b != [] && a[0] == b[0] {
      LexLeqTotal(a[1..], b[1..]);
    }
  }

  lemma {:induction false} LexLeqAntisymmetric(a: string, b: string)
    requires LexLeq(a, b) && LexLeq(b, a)
    ensures a == b
    decreases |a|
  {
    if a != [] {
      LexLeqAntisymmetric(a[1..], b[1..]);
      assert a == [a[0]] + a[1..] && b == [b[0]] + b[1..];
    }
  }

  /** The JavaScript whitespace and line terminators that `String.prototype.trim` strips. */
  predicate IsJsWhitespace(c: char) {
    c == ' ' || c == '\t' || c == '\n' || c == '\r' || c == '\U{000B}' || c == '\U{000C}'
    || c == '\U{00A0}' || c == '\U{1680}' || ('\U{2000}' <= c <= '\U{200A}')
    || c == '\U{2028}' || c == '\U{2029}' || c == '\U{202F}' || c == '\U{205F}'
    || c == '\U{3000}' || c == '\U{FEFF}'
  }

  /** `s.trim()` is the empty string: every character of s is whitespace. */
  predicate TrimsToEmpty(s: string) {
    forall i :: 0 <= i < |s| ==> IsJsWhitespace(s[i])
  }

  /** The number of whitespace characters s starts with. */
  function LeadingSpace(s: string): (n: nat)
    ensures n <= |s|
    ensures forall k :: 0 <= k < n ==> IsJsWhitespace(s[k])
    ensures n < |s| ==> !IsJsWhitespace(s[n])
  {
    if s == [] || !IsJsWhitespace(s[0]) then 0 else 1 + LeadingSpace(s[1..])
  }

  /** The index where the whitespace s ends with begins. */
  function TrailingStart(s: string): (n: nat)
    ensures n <= |s|
    ensures forall k :: n <= k < |s| ==> IsJsWhitespace(s[k])
    ensures n > 0 ==> !IsJsWhitespace(s[n - 1])
  {
    if s == [] || !IsJsWhitespace(s[|s| - 1]) then |s| else TrailingStart(s[..|s| - 1])
  }

  /** r is s with a whitespace-only prefix of length i and a whitespace-only suffix removed. */
  predicate StripsSpaceAround(s: string, i: nat, r: string) {
    i + |r| <= |s| && s[i..i + |r|] == r && TrimsToEmpty(s[..i]) && TrimsToEmpty(s[i + |r|..])
  }

  /**
   * `String.prototype.trim`, the `trim` option of a schema string: s without
   * its leading and trailing whitespace. What is removed is whitespace, and
   * what is kept neither starts nor ends with whitespace, which determines r.
   */
  function Trim(s: string): (r: string)
    ensures StripsSpaceAround(s, LeadingSpace(s), r)
    ensures r != [] ==> !IsJsWhitespace(r[0]) && !IsJsWhitespace(r[|r| - 1])
    ensures r == [] <==> TrimsToEmpty(s)
  {
    var i := LeadingSpace(s);
    var t := s[i..];
    var j := TrailingStart(t);
    TrimSplits(s, i, t, j);
    t[..j]
  }

  /** The pieces Trim cuts s into: leading whitespace, the kept middle, trailing whitespace. */
  lemma TrimSplits(s: string, i: nat, t: string, j: nat)
    requires i == LeadingSpace(s) && t == s[i..] && j == TrailingStart(t)
    ensures StripsSpaceAround(s, i, t[..j])
    ensures t[..j] == [] <==> TrimsToEmpty(s)
  {
    assert s[i..i + j] == t[..j];
    forall k | 0 <= k < i ensures IsJsWhitespace(s[..i][k]) {
      assert s[..i][k] == s[k];
    }
    assert s[i + j..] == t[j..];
    forall k | 0 <= k < |t| - j ensures IsJsWhitespace(t[j..][k]) {
      assert t[j..][k] == t[j + k];
    }
    if j != 0 {
      assert !IsJsWhitespace(s[i + j - 1]) by { assert s[i + j - 1] == t[j - 1]; }
    }
  }

  /** Trimming a trimmed string changes nothing. */
  lemma TrimIdempotent(s: string)
    ensures Trim(Trim(s)) == Trim(s)
  {
    var r := Trim(s);
    if r != [] {
      assert LeadingSpace(r) == 0;
      assert TrailingStart(r) == |r|;
    }
  }
}
