/**
 * The few JavaScript string operations the core relies on:
 * `String.prototype.includes`, `String.prototype.trim` and `toUpperCase`.
 */
module Text {

  /** `s.includes(t)`: does `t` occur in `s` as a contiguous substring? */
  function Contains(s: string, t: string): bool
    decreases |s|
  {
    if |s| < |t| then false
    else if s[..|t|] == t then true
    else Contains(s[1..], t)
  }

  /** `t` occurs in `s` starting at position `i`. */
  ghost predicate OccursAt(s: string, t: string, i: int) {
    0 <= i && i + |t| <= |s| && s[i..i + |t|] == t
  }

  /** The reference meaning of `Contains`: some position of `s` starts a copy of `t`. */
  ghost predicate Occurs(s: string, t: string) {
    exists i :: OccursAt(s, t, i)
  }

  /** Without a match at position 0, occurrences in `s` are those in `s[1..]`, shifted by one. */
  lemma OccursTail(s: string, t: string)
    requires |s| > 0 && !OccursAt(s, t, 0)
    ensures Occurs(s, t) <==> Occurs(s[1..], t)
  {
    if Occurs(s, t) {
      var i :| OccursAt(s, t, i);
      assert s[1..][i - 1..i - 1 + |t|] == s[i..i + |t|];
      assert OccursAt(s[1..], t, i - 1);
    }
    if Occurs(s[1..], t) {
      var i :| OccursAt(s[1..], t, i);
      assert s[i + 1..i + 1 + |t|] == s[1..][i..i + |t|];
      assert OccursAt(s, t, i + 1);
    }
  }

  lemma {:induction false} ContainsIffOccurs(s: string, t: string)
    ensures Contains(s, t) <==> Occurs(s, t)
    decreases |s|
  {
    if |s| < |t| {
      assert forall i :: !OccursAt(s, t, i);
    } else if s[..|t|] == t {
      assert OccursAt(s, t, 0);
    } else {
      ContainsIffOccurs(s[1..], t);
      OccursTail(s, t);
    }
  }

  /** A string contains every one of its prefixes. */
  lemma ContainsPrefix(t: string, rest: string)
    ensures Contains(t + rest, t)
  {
    assert (t + rest)[..|t|] == t;
  }

  /**
   * Prepending characters that cannot start `t` does not create an occurrence of `t`:
   * `(pre + d).includes(t)` is `d.includes(t)` when `t[0]` is not in `pre`.
   */
  lemma {:induction false} ContainsAfterPrefix(pre: string, d: string, t: string)
    requires |t| > 0 && t[0] !in pre
    ensures Contains(pre + d, t) <==> Contains(d, t)
    decreases |pre|
  {
    if pre == [] {
      assert pre + d == d;
    } else if |pre + d| < |t| {
      if Contains(d, t) {
        ContainsIffOccurs(d, t);
      }
    } else {
      assert (pre + d)[..|t|][0] == pre[0];
      assert (pre + d)[1..] == pre[1..] + d;
      assert forall c :: c in pre[1..] ==> c in pre;
      ContainsAfterPrefix(pre[1..], d, t);
    }
  }

  /** A string that lacks some character of `t` does not contain `t`. */
  lemma {:induction false} ContainsNeedsChar(s: string, t: string, j: nat)
    requires j < |t| && t[j] !in s
    ensures !Contains(s, t)
    decreases |s|
  {
    if |s| >= |t| {
      assert s[..|t|][j] == s[j];
      assert forall c :: c in s[1..] ==> c in s;
      ContainsNeedsChar(s[1..], t, j);
    }
  }

  /**
   * The characters `trim` removes in ECMAScript: WhiteSpace (TAB, VT, FF, ZWNBSP and
   * every space separator of category Zs) and LineTerminator (LF, CR, LS, PS).
   */
  predicate IsTrimmed(c: char) {
    var n := c as int;
    || n == 0x09 || n == 0x0B || n == 0x0C || n == 0xFEFF
    || n == 0x20 || n == 0xA0 || n == 0x1680 || (0x2000 <= n <= 0x200A)
    || n == 0x202F || n == 0x205F || n == 0x3000
    || n == 0x0A || n == 0x0D || n == 0x2028 || n == 0x2029
  }

  /** Removes leading white space; the result is a suffix of `s`. */
  function TrimStart(s: string): (r: string)
    ensures |r| <= |s| && r == s[|s| - |r|..]
    ensures r != [] ==> !IsTrimmed(r[0])
    ensures forall i :: 0 <= i < |s| - |r| ==> IsTrimmed(s[i])
    decreases |s|
  {
    if s != [] && IsTrimmed(s[0]) then TrimStart(s[1..]) else s
  }

  /** Removes trailing white space; the result is a prefix of `s`. */
  function TrimEnd(s: string): (r: string)
    ensures |r| <= |s| && r == s[..|r|]
    ensures r != [] ==> !IsTrimmed(r[|r| - 1])
    ensures forall i :: |r| <= i < |s| ==> IsTrimmed(s[i])
    decreases |s|
  {
    if s != [] && IsTrimmed(s[|s| - 1]) then TrimEnd(s[..|s| - 1]) else s
  }

  /** `s.trim()`. */
  function Trim(s: string): string {
    TrimEnd(TrimStart(s))
  }

  /** `s.trim() === ""` holds exactly when every character of `s` is white space. */
  lemma TrimEmptyIff(s: string)
    ensures Trim(s) == "" <==> forall i :: 0 <= i < |s| ==> IsTrimmed(s[i])
  {
    var u := TrimStart(s);
    if forall i :: 0 <= i < |s| ==> IsTrimmed(s[i]) {
      TrimStartAllBlank(s);
    }
    if Trim(s) == "" {
      // what `TrimEnd` leaves of `u` is empty, so `u` is all white space and starts with none
      assert u == [];
    }
  }

  /** A string made only of white space trims to nothing from the front. */
  lemma {:induction false} TrimStartAllBlank(s: string)
    requires forall i :: 0 <= i < |s| ==> IsTrimmed(s[i])
    ensures TrimStart(s) == []
    decreases |s|
  {
    if s != [] {
      assert forall i :: 0 <= i < |s| - 1 ==> s[1..][i] == s[i + 1];
      TrimStartAllBlank(s[1..]);
    }
  }

  /** `toUpperCase` on one character, for the ASCII letters. */
  function UpperChar(c: char): char {
    if 'a' <= c <= 'z' then (c as int - 32) as char else c
  }

  /** `s.toUpperCase()`, for the ASCII letters. */
  function ToUpper(s: string): (r: string)
    ensures |r| == |s|
  {
    seq(|s|, i requires 0 <= i < |s| => UpperChar(s[i]))
  }
}
