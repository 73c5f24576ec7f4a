/**
 * The few `java.lang.String` operations the page objects rely on:
 * `toLowerCase`, `contains` and the literal `replace(CharSequence, CharSequence)`.
 */
module JavaStrings {

  /** Lower-case mapping of one character (ASCII letters only). */
  function LowerChar(c: char): char
  {
    if 'A' <= c <= 'Z' then (c as int + 32) as char else c
  }

  /** `s.toLowerCase()`: every character mapped on its own, length kept. */
  function ToLower(s: string): (r: string)
    ensures |r| == |s|
    ensures forall i :: 0 <= i < |s| ==> r[i] == LowerChar(s[i])
  {
    seq(|s|, i requires 0 <= i < |s| => LowerChar(s[i]))
  }

  /** `s.contains(w)`: `w` occurs in `s` at some position. */
  predicate Contains(s: string, w: string)
    decreases |s|
  {
    if |s| < |w| then false
    else s[..|w|] == w || Contains(s[1..], w)
  }

  /** An occurrence at a known position is found by `Contains`. */
  lemma {:induction false} ContainsAt(s: string, w: string, k: nat)
    requires k + |w| <= |s| && s[k..k + |w|] == w
    ensures Contains(s, w)
    decreases k
  {
    if k > 0 {
      assert s[1..][k - 1..k - 1 + |w|] == s[k..k + |w|];
      ContainsAt(s[1..], w, k - 1);
    } else {
      assert s[..|w|] == s[k..k + |w|];
    }
  }

  /** Lower-casing commutes with taking a slice. */
  lemma ToLowerSlice(s: string, i: nat, j: nat)
    requires i <= j <= |s|
    ensures ToLower(s)[i..j] == ToLower(s[i..j])
  {
  }

  /** Case-insensitive search: if `w` occurs in `s`, then `w` lower-cased occurs in `s` lower-cased. */
  lemma {:induction false} ContainsToLower(s: string, w: string)
    requires Contains(s, w)
    ensures Contains(ToLower(s), ToLower(w))
    decreases |s|
  {
    if s[..|w|] == w {
      ToLowerSlice(s, 0, |w|);
      assert ToLower(s)[..|ToLower(w)|] == ToLower(w);
    } else {
      ContainsToLower(s[1..], w);
      ToLowerSlice(s, 1, |s|);
      assert ToLower(s)[1..] == ToLower(s[1..]);
    }
  }

  /** Lower-casing is idempotent. */
  lemma ToLowerIdempotent(s: string)
    ensures ToLower(ToLower(s)) == ToLower(s)
  {
  }

  /**
   * `s.replace(target, rep)`: scanning from the left, every non-overlapping
   * occurrence of `target` is replaced by `rep`.
   */
  function Replace(s: string, target: string, rep: string): string
    requires |target| > 0
    decreases |s|
  {
    if |s| < |target| then s
    else if s[..|target|] == target then rep + Replace(s[|target|..], target, rep)
    else [s[0]] + Replace(s[1..], target, rep)
  }

  /** A string without an occurrence of `target` is returned unchanged. */
  lemma {:induction false} ReplaceWithoutTarget(s: string, target: string, rep: string)
    requires |target| > 0 && !Contains(s, target)
    ensures Replace(s, target, rep) == s
    decreases |s|
  {
    if |s| >= |target| {
      ReplaceWithoutTarget(s[1..], target, rep);
      assert [s[0]] + s[1..] == s;
    }
  }

  /** A replacement no longer than the target never lengthens the string. */
  lemma {:induction false} ReplaceNotLonger(s: string, target: string, rep: string)
    requires |target| > 0 && |rep| <= |target|
    ensures |Replace(s, target, rep)| <= |s|
    decreases |s|
  {
    if |s| >= |target| {
      if s[..|target|] == target {
        ReplaceNotLonger(s[|target|..], target, rep);
      } else {
        ReplaceNotLonger(s[1..], target, rep);
      }
    }
  }

  /** A strictly shorter replacement strictly shortens any string holding the target. */
  lemma {:induction false} ReplaceShortens(s: string, target: string, rep: string)
    requires |target| > 0 && |rep| < |target| && Contains(s, target)
    ensures |Replace(s, target, rep)| < |s|
    decreases |s|
  {
    if s[..|target|] == target {
      ReplaceNotLonger(s[|target|..], target, rep);
    } else {
      ReplaceShortens(s[1..], target, rep);
    }
  }

  /**
   * With a strictly shorter replacement, `replace` leaves the string unchanged
   * exactly when the target does not occur in it.
   */
  lemma ReplaceIdentityIff(s: string, target: string, rep: string)
    requires |target| > 0 && |rep| < |target|
    ensures Replace(s, target, rep) == s <==> !Contains(s, target)
  {
    if Contains(s, target) {
      ReplaceShortens(s, target, rep);
    } else {
      ReplaceWithoutTarget(s, target, rep);
    }
  }

  /** An occurrence found by `Contains` sits at some position. */
  lemma {:induction false} ContainsPosition(s: string, w: string) returns (k: nat)
    requires Contains(s, w)
    ensures k + |w| <= |s| && s[k..k + |w|] == w
    decreases |s|
  {
    if s[..|w|] == w {
      k := 0;
    } else {
      var k' := ContainsPosition(s[1..], w);
      assert s[1..][k'..k' + |w|] == s[k' + 1..k' + 1 + |w|];
      k := k' + 1;
    }
  }

  /** `w` and `rep` differ at an index both of them have. */
  predicate Clashes(w: string, rep: string)
  {
    exists i :: 0 <= i < |w| && i < |rep| && w[i] != rep[i]
  }

  /** No non-empty suffix of `w` agrees with `rep` on their common length. */
  predicate SuffixesClash(w: string, rep: string)
  {
    forall j :: 0 <= j < |w| ==> Clashes(w[j..], rep)
  }

  /**
   * If the result of `replace` begins with a `w` no suffix of which could
   * overlap the start of a replacement, then the original began with `w` too.
   */
  lemma {:induction false} ReplacePrefix(s: string, target: string, rep: string, w: string)
    requires |target| > 0 && SuffixesClash(w, rep)
    ensures |w| <= |Replace(s, target, rep)| && Replace(s, target, rep)[..|w|] == w ==>
      |w| <= |s| && s[..|w|] == w
    decreases |s|
  {
    var r := Replace(s, target, rep);
    if w != [] && |s| >= |target| {
      if s[..|target|] == target {
        assert r == rep + Replace(s[|target|..], target, rep);
        assert Clashes(w[0..], rep);
        var i :| 0 <= i < |w| && i < |rep| && w[0..][i] != rep[i];
        assert |w| <= |r| ==> r[..|w|][i] != w[i];
      } else {
        var r' := Replace(s[1..], target, rep);
        assert r == [s[0]] + r';
        forall j | 0 <= j < |w[1..]| ensures Clashes(w[1..][j..], rep) {
          assert w[1..][j..] == w[j + 1..];
        }
        ReplacePrefix(s[1..], target, rep, w[1..]);
        if |w| <= |r| && r[..|w|] == w {
          assert r'[..|w| - 1] == r[1..|w|] == w[1..];
          assert s[..|w|] == [s[0]] + s[1..][..|w| - 1];
        }
      }
    }
  }

  /** An occurrence cannot start inside a replacement that lacks the target's first character. */
  lemma NoTargetAcrossReplacement(rep: string, rest: string, target: string)
    requires |target| > 0 && target[0] !in rep && !Contains(rest, target)
    ensures !Contains(rep + rest, target)
  {
    if Contains(rep + rest, target) {
      var k := ContainsPosition(rep + rest, target);
      if k < |rep| {
        assert false;
      } else {
        assert rest[k - |rep|..k - |rep| + |target|] == (rep + rest)[k..k + |target|];
        ContainsAt(rest, target, k - |rep|);
      }
    }
  }

  /** An occurrence in `[c] + rest` starts at `c`, or lies within `rest`. */
  lemma NoTargetAfterChar(c: char, rest: string, target: string)
    requires |target| > 0 && !Contains(rest, target)
    requires !(c == target[0] && |target| - 1 <= |rest| && rest[..|target| - 1] == target[1..])
    ensures !Contains([c] + rest, target)
  {
    assert ([c] + rest)[1..] == rest;
    if |target| - 1 <= |rest| {
      assert ([c] + rest)[..|target|] == [c] + rest[..|target| - 1];
    }
  }

  /**
   * When the replacement cannot hold the target's first character, and no
   * suffix of the target's tail can run into a replacement, `replace` leaves
   * no occurrence of the target behind.
   */
  lemma {:induction false} ReplaceRemovesTarget(s: string, target: string, rep: string)
    requires |target| > 0 && target[0] !in rep && SuffixesClash(target[1..], rep)
    ensures !Contains(Replace(s, target, rep), target)
    decreases |s|
  {
    if |s| >= |target| {
      if s[..|target|] == target {
        ReplaceRemovesTarget(s[|target|..], target, rep);
        NoTargetAcrossReplacement(rep, Replace(s[|target|..], target, rep), target);
      } else {
        var r' := Replace(s[1..], target, rep);
        ReplaceRemovesTarget(s[1..], target, rep);
        ReplacePrefix(s[1..], target, rep, target[1..]);
        assert |s[1..]| >= |target| - 1 ==> s[..|target|] == [s[0]] + s[1..][..|target| - 1];
        NoTargetAfterChar(s[0], r', target);
      }
    }
  }
}
