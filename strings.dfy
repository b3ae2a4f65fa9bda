/** The two JavaScript string operations the merge engine relies on:
    `String.prototype.includes` and `String.prototype.split` with a
    one-character separator. */
module Strings {

  /** `s.includes(t)`: `t` occurs somewhere in `s` (`<=` is "is a prefix of"). */
  predicate Contains(s: string, t: string)
    decreases |s|
  {
    t <= s || (|s| > 0 && Contains(s[1..], t))
  }

  /** An occurrence after the prefix `a` is found by `Contains`. */
  lemma {:induction false} ContainsAt(a: string, t: string, b: string)
    ensures Contains(a + t + b, t)
    decreases |a|
  {
    if |a| == 0 {
      assert a + t + b == t + b;
    } else {
      ContainsAt(a[1..], t, b);
      assert (a + t + b)[1..] == a[1..] + t + b;
    }
  }

  /** `t` occurs in `s` exactly when `s` can be cut around an occurrence of it. */
  lemma {:induction false} ContainsIff(s: string, t: string)
    ensures Contains(s, t) <==> exists a, b :: s == a + t + b
    decreases |s|
  {
    forall a, b | s == a + t + b ensures Contains(s, t) {
      ContainsAt(a, t, b);
    }
    if t <= s {
      assert s == [] + t + s[|t|..];
    } else if |s| > 0 && Contains(s[1..], t) {
      ContainsIff(s[1..], t);
      var a, b :| s[1..] == a + t + b;
      assert s == [s[0]] + a + t + b;
    }
  }

  /** An occurrence of `x + y + z` holds an occurrence of `y`. */
  lemma {:induction false} ContainsInner(s: string, x: string, y: string, z: string)
    ensures Contains(s, x + y + z) ==> Contains(s, y)
    decreases |s|
  {
    if x + y + z <= s {
      assert s == x + y + (z + s[|x + y + z|..]);
      ContainsAt(x, y, z + s[|x + y + z|..]);
    } else if |s| > 0 {
      ContainsInner(s[1..], x, y, z);
      if Contains(s[1..], y) {
        ContainsIff(s[1..], y);
        var a, b :| s[1..] == a + y + b;
        assert s == ([s[0]] + a) + y + b;
        ContainsAt([s[0]] + a, y, b);
      }
    }
  }

  /** A character of an occurrence is a character of the string. */
  lemma {:induction false} ContainsKeepsChar(s: string, t: string, c: char)
    ensures Contains(s, t) && c in t ==> c in s
    decreases |s|
  {
    if t <= s && c in t {
      var k :| 0 <= k < |t| && t[k] == c;
      assert s[k] == c;
    } else if |s| > 0 {
      ContainsKeepsChar(s[1..], t, c);
      if c in s[1..] {
        var k :| 0 <= k < |s[1..]| && s[1..][k] == c;
        assert s[k + 1] == c;
      }
    }
  }

  /** `s.split(c)` for a one-character separator `c`. */
  function SplitOn(s: string, c: char): (parts: seq<string>)
    ensures |parts| >= 1
    ensures forall p :: p in parts ==> c !in p
    ensures |parts| > 1 <==> c in s
    decreases |s|
  {
    if |s| == 0 then [""]
    else
      var rest := SplitOn(s[1..], c);
      if s[0] == c then [""] + rest
      else [[s[0]] + rest[0]] + rest[1..]
  }

  /** `parts.join(c)`. */
  function JoinOn(parts: seq<string>, c: char): string
    requires |parts| >= 1
  {
    if |parts| == 1 then parts[0] else parts[0] + [c] + JoinOn(parts[1..], c)
  }

  /** The first two parts of a join, and what follows them. */
  lemma JoinOnFirstTwo(parts: seq<string>, c: char)
    requires |parts| >= 2
    ensures JoinOn(parts, c) == parts[0] + [c] + parts[1] +
      (if |parts| == 2 then "" else [c] + JoinOn(parts[2..], c))
  {
    assert parts[1..][1..] == parts[2..];
  }

  /** With two parts or more, the string starts with the first part, the
      separator and the second part, and what follows is empty or starts
      with the separator. */
  lemma SplitOnFirstTwo(s: string, c: char)
    ensures var parts := SplitOn(s, c);
      |parts| > 1 ==>
        parts[0] + [c] + parts[1] <= s &&
        (|parts| == 2 ==> s == parts[0] + [c] + parts[1]) &&
        (|parts| > 2 ==> |parts[0] + [c] + parts[1]| < |s| && s[|parts[0] + [c] + parts[1]|] == c)
  {
    var parts := SplitOn(s, c);
    if |parts| > 1 {
      JoinSplit(s, c);
      JoinOnFirstTwo(parts, c);
      if |parts| > 2 {
        var head := parts[0] + [c] + parts[1];
        assert s == head + ([c] + JoinOn(parts[2..], c));
        assert s[|head|] == c;
      }
    }
  }

  /** Splitting and re-joining gives the string back. */
  lemma {:induction false} JoinSplit(s: string, c: char)
    ensures JoinOn(SplitOn(s, c), c) == s
    decreases |s|
  {
    if |s| > 0 {
      JoinSplit(s[1..], c);
      var rest := SplitOn(s[1..], c);
      if s[0] == c {
        assert SplitOn(s, c)[1..] == rest;
        assert s == [c] + s[1..];
      } else {
        var parts := SplitOn(s, c);
        assert parts[0] == [s[0]] + rest[0];
        if |rest| == 1 {
          assert s == [s[0]] + s[1..];
        } else {
          assert parts[1..] == rest[1..];
          assert JoinOn(rest, c) == rest[0] + [c] + JoinOn(rest[1..], c);
          assert s == [s[0]] + s[1..];
        }
      }
    }
  }
}
