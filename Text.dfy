/**
  The string operations the bot relies on: Python's `str.lower()`,
  `str.strip()`, the substring test `p in s` and `" ".join(args)`.
  Case mapping and white space are restricted to ASCII: characters outside
  ASCII are left as they are by Lower and are never white space.
*/
module Text {

  /** Python's `str.isspace()` on ASCII: tab, line feed, vertical tab, form
      feed, carriage return, the separators 0x1C to 0x1F, and space. */
  predicate IsSpace(c: char) {
    c as int == 32 || 9 <= c as int <= 13 || 28 <= c as int <= 31
  }

  predicate IsUpper(c: char) {
    'A' <= c <= 'Z'
  }

  function LowerChar(c: char): (r: char)
    ensures !IsUpper(r)
    ensures IsUpper(c) ==> r as int == c as int + 32
    ensures !IsUpper(c) ==> r == c
  {
    if IsUpper(c) then (c as int + 32) as char else c
  }

  /** `s.lower()`: every upper-case ASCII letter replaced by its lower-case
      counterpart, every other character kept. */
  function Lower(s: string): (r: string)
    ensures |r| == |s|
    ensures forall i :: 0 <= i < |r| ==> !IsUpper(r[i])
    ensures forall i :: 0 <= i < |s| && !IsUpper(s[i]) ==> r[i] == s[i]
  {
    seq(|s|, i requires 0 <= i < |s| => LowerChar(s[i]))
  }

  lemma LowerIdempotent(s: string)
    ensures Lower(Lower(s)) == Lower(s)
  {
  }

  /** The part of `s` left after dropping its leading white space. */
  function TrimStart(s: string): (r: string)
    ensures |r| <= |s|
  {
    if s != [] && IsSpace(s[0]) then TrimStart(s[1..]) else s
  }

  /** TrimStart keeps a suffix of `s`, drops only white space, and what it
      keeps does not start with white space. */
  lemma {:induction false} TrimStartSpec(s: string)
    ensures TrimStart(s) == s[|s| - |TrimStart(s)|..]
    ensures forall i :: 0 <= i < |s| - |TrimStart(s)| ==> IsSpace(s[i])
    ensures TrimStart(s) == [] || !IsSpace(TrimStart(s)[0])
  {
    if s != [] && IsSpace(s[0]) {
      TrimStartSpec(s[1..]);
      var r := TrimStart(s);
      assert r == TrimStart(s[1..]);
      assert s[1..][|s| - 1 - |r|..] == s[|s| - |r|..];
      forall i | 0 <= i < |s| - |r| ensures IsSpace(s[i]) {
        if i > 0 {
          assert s[i] == s[1..][i - 1];
        }
      }
    }
  }

  /** The part of `s` left after dropping its trailing white space. */
  function TrimEnd(s: string): (r: string)
    ensures |r| <= |s|
  {
    if s != [] && IsSpace(s[|s| - 1]) then TrimEnd(s[..|s| - 1]) else s
  }

  /** TrimEnd keeps a prefix of `s`, drops only white space, and what it
      keeps does not end with white space. */
  lemma {:induction false} TrimEndSpec(s: string)
    ensures TrimEnd(s) == s[..|TrimEnd(s)|]
    ensures forall i :: |TrimEnd(s)| <= i < |s| ==> IsSpace(s[i])
    ensures TrimEnd(s) == [] || !IsSpace(TrimEnd(s)[|TrimEnd(s)| - 1])
  {
    if s != [] && IsSpace(s[|s| - 1]) {
      TrimEndSpec(s[..|s| - 1]);
      var r := TrimEnd(s);
      assert r == TrimEnd(s[..|s| - 1]);
      assert s[..|s| - 1][..|r|] == s[..|r|];
      forall i | |r| <= i < |s| ensures IsSpace(s[i]) {
        if i < |s| - 1 {
          assert s[i] == s[..|s| - 1][i];
        }
      }
    }
  }

  /** `p` occurs in `s` at position `k`. */
  ghost predicate OccursAt(s: string, p: string, k: int) {
    0 <= k && k + |p| <= |s| && s[k..k + |p|] == p
  }

  /** `r` is the slice of `s` at position `k`, and all of `s` around it is
      white space. */
  ghost predicate KeptAt(s: string, r: string, k: int) {
    && OccursAt(s, r, k)
    && (forall i :: 0 <= i < k ==> IsSpace(s[i]))
    && (forall i :: k + |r| <= i < |s| ==> IsSpace(s[i]))
  }

  /** `s` is nothing but white space (the empty string included). */
  predicate IsBlank(s: string) {
    forall i :: 0 <= i < |s| ==> IsSpace(s[i])
  }

  /** `s.strip()`: white space removed at both ends. */
  function Strip(s: string): (r: string)
    ensures |r| <= |s|
  {
    TrimEnd(TrimStart(s))
  }

  /** A prefix of a suffix is a slice. */
  lemma SliceOfSuffix(s: string, a: int, n: int)
    requires 0 <= a <= |s| && 0 <= n <= |s| - a
    ensures s[a..][..n] == s[a..a + n]
  {
    forall i | 0 <= i < n ensures s[a..][..n][i] == s[a..a + n][i] {
      assert s[a..][i] == s[a + i];
    }
  }

  /** What Strip keeps: the slice of `s` left after its leading white space,
      surrounded only by white space, neither starting nor ending with white
      space, and empty exactly when `s` is all white space. */
  lemma StripSpec(s: string)
    ensures KeptAt(s, Strip(s), |s| - |TrimStart(s)|)
    ensures Strip(s) == [] || (!IsSpace(Strip(s)[0]) && !IsSpace(Strip(s)[|Strip(s)| - 1]))
    ensures Strip(s) == [] <==> IsBlank(s)
  {
    var t := TrimStart(s);
    var r := TrimEnd(t);
    TrimStartSpec(s);
    TrimEndSpec(t);
    SliceOfSuffix(s, |s| - |t|, |r|);
    assert KeptAt(s, r, |s| - |t|) by {
      forall i | |s| - |t| + |r| <= i < |s| ensures IsSpace(s[i]) {
        assert s[i] == t[i - (|s| - |t|)];
      }
    }
  }

  /** Stripping a string that already has no white space at either end
      leaves it as it is. */
  lemma StripUnpadded(s: string)
    requires s != [] && !IsSpace(s[0]) && !IsSpace(s[|s| - 1])
    ensures Strip(s) == s
  {
    assert TrimStart(s) == s;
    assert TrimEnd(s) == s;
  }

  /** Python's `p in s` on strings: `p` occurs somewhere in `s` as a
      contiguous block, tried at every start position from the left. */
  predicate Contains(s: string, p: string) {
    p <= s || (s != [] && Contains(s[1..], p))
  }

  /** An occurrence in the tail of `s` is an occurrence in `s` one
      position further on. */
  lemma OccursShift(s: string, p: string, k: int)
    requires s != [] && 0 <= k
    ensures OccursAt(s[1..], p, k) <==> OccursAt(s, p, k + 1)
  {
    if k + 1 + |p| <= |s| {
      assert s[1..][k..k + |p|] == s[k + 1..k + 1 + |p|];
    }
  }

  /** Contains agrees with the positional definition of a substring. */
  lemma {:induction false} ContainsIff(s: string, p: string)
    ensures Contains(s, p) <==> exists k :: OccursAt(s, p, k)
  {
    if p <= s {
      assert OccursAt(s, p, 0);
    } else if s == [] {
      assert forall k :: !OccursAt(s, p, k);
    } else {
      ContainsIff(s[1..], p);
      if Contains(s[1..], p) {
        var k :| OccursAt(s[1..], p, k);
        OccursShift(s, p, k);
      } else {
        forall k | 0 < k
          ensures !OccursAt(s, p, k)
        {
          OccursShift(s, p, k - 1);
        }
        assert !OccursAt(s, p, 0);
      }
    }
  }

  /** Every string contains the empty string, so an empty keyword would
      match every text. */
  lemma ContainsEmpty(s: string)
    ensures Contains(s, [])
  {
  }

  /** `" ".join(args)`. */
  function Join(args: seq<string>): (r: string)
    ensures args == [] ==> r == []
    ensures |args| == 1 ==> r == args[0]
  {
    if args == [] then []
    else if |args| == 1 then args[0]
    else args[0] + " " + Join(args[1..])
  }

  /** A word as the platform's command parser produces it: non-empty and free
      of white space (Python's `str.split()`). */
  predicate IsToken(w: string) {
    w != [] && forall i :: 0 <= i < |w| ==> !IsSpace(w[i])
  }

  /** The words of a command line, joined with single spaces, neither start
      nor end with white space. */
  lemma {:induction false} JoinEnds(args: seq<string>)
    requires args != [] && forall j :: 0 <= j < |args| ==> IsToken(args[j])
    ensures Join(args) != []
    ensures !IsSpace(Join(args)[0]) && !IsSpace(Join(args)[|Join(args)| - 1])
  {
    assert IsToken(args[0]);
    if |args| > 1 {
      JoinEnds(args[1..]);
    }
  }

  /** Joined command words already have no white space at either end, so the
      bot's `.strip()` returns them unchanged and never yields a blank word. */
  lemma JoinedTokensAreStripped(args: seq<string>)
    requires args != [] && forall j :: 0 <= j < |args| ==> IsToken(args[j])
    ensures Strip(Join(args)) == Join(args) != []
  {
    JoinEnds(args);
    StripUnpadded(Join(args));
  }
}
