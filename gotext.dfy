/**
 * The two routines of Go's `strings` package the core relies on:
 * `strings.Split` with a non-empty separator and `strings.TrimSpace`,
 * each with the independent characterisation it is proved against.
 */
module GoText {

  // ---------------------------------------------------------------------
  // Occurrences of a substring
  // ---------------------------------------------------------------------

  /** The number of positions of `s` at which `sub` starts (overlaps included). */
  function CountOcc(s: string, sub: string): nat
    requires sub != ""
    decreases |s|
  {
    if |s| < |sub| then 0
    else (if s[..|sub|] == sub then 1 else 0) + CountOcc(s[1..], sub)
  }

  /** The first character of `sep` occurs nowhere else in it, so two occurrences never overlap. */
  predicate HeadUnique(sep: string)
  {
    forall i :: 0 < i < |sep| ==> sep[i] != sep[0]
  }

  // ---------------------------------------------------------------------
  // strings.Split
  // ---------------------------------------------------------------------

  /**
   * Go's `strings.Split(s, sep)` for a non-empty `sep`: the pieces of `s`
   * around each occurrence of `sep`, found left to right without overlap.
   * A string without `sep` (the empty string included) gives one piece.
   */
  function Split(s: string, sep: string): (parts: seq<string>)
    requires sep != ""
    ensures |parts| >= 1
    decreases |s|
  {
    if |s| < |sep| then [s]
    else if s[..|sep|] == sep then [""] + Split(s[|sep|..], sep)
    else
      var rest := Split(s[1..], sep);
      [[s[0]] + rest[0]] + rest[1..]
  }

  /** The pieces glued back together with `sep` between them. */
  function Join(parts: seq<string>, sep: string): string
    requires |parts| >= 1
  {
    if |parts| == 1 then parts[0] else parts[0] + sep + Join(parts[1..], sep)
  }

  lemma {:induction false} JoinConsHead(x: string, parts: seq<string>, sep: string)
    requires |parts| >= 1
    ensures Join([x + parts[0]] + parts[1..], sep) == x + Join(parts, sep)
  {
    var q := [x + parts[0]] + parts[1..];
    if |parts| > 1 {
      assert q[1..] == parts[1..];
    }
  }

  lemma {:induction false} JoinStartsWithFirst(parts: seq<string>, sep: string)
    requires |parts| >= 1
    ensures |parts[0]| <= |Join(parts, sep)|
    ensures Join(parts, sep)[..|parts[0]|] == parts[0]
  {
  }

  /** Splitting loses nothing: joining the pieces with the separator gives back the input. */
  lemma {:induction false} SplitJoin(s: string, sep: string)
    requires sep != ""
    ensures Join(Split(s, sep), sep) == s
    decreases |s|
  {
    var n := |sep|;
    if |s| < n {
    } else if s[..n] == sep {
      var tail := Split(s[n..], sep);
      SplitJoin(s[n..], sep);
      assert ([""] + tail)[1..] == tail;
      assert s == sep + s[n..];
    } else {
      var rest := Split(s[1..], sep);
      SplitJoin(s[1..], sep);
      JoinConsHead([s[0]], rest, sep);
      assert s == [s[0]] + s[1..];
    }
  }

  /** No piece of a split contains the separator. */
  lemma {:induction false} SplitPiecesFree(s: string, sep: string)
    requires sep != ""
    ensures forall k :: 0 <= k < |Split(s, sep)| ==> CountOcc(Split(s, sep)[k], sep) == 0
    decreases |s|
  {
    var n := |sep|;
    var parts := Split(s, sep);
    if |s| < n {
    } else if s[..n] == sep {
      var tail := Split(s[n..], sep);
      SplitPiecesFree(s[n..], sep);
      forall k | 0 <= k < |parts| ensures CountOcc(parts[k], sep) == 0 {
        if k > 0 {
          assert parts[k] == tail[k - 1];
        }
      }
    } else {
      var rest := Split(s[1..], sep);
      SplitPiecesFree(s[1..], sep);
      var first := [s[0]] + rest[0];
      SplitJoin(s[1..], sep);
      JoinStartsWithFirst(rest, sep);
      if |first| >= n {
        assert first[..n] == s[..n];
        assert first[1..] == rest[0];
      }
      assert CountOcc(first, sep) == 0;
      forall k | 0 <= k < |parts| ensures CountOcc(parts[k], sep) == 0 {
        if k > 0 {
          assert parts[k] == rest[k];
        }
      }
    }
  }

  /** Within an occurrence of a head-unique separator no other occurrence starts. */
  lemma {:induction false} CountSkipsOccurrence(s: string, sep: string, k: nat)
    requires sep != "" && HeadUnique(sep)
    requires |sep| <= |s| && s[..|sep|] == sep
    requires 1 <= k <= |sep|
    ensures CountOcc(s[k..], sep) == CountOcc(s[|sep|..], sep)
    decreases |sep| - k
  {
    var n := |sep|;
    if k < n {
      var t := s[k..];
      if |t| >= n {
        assert t[0] == sep[k];
        assert t[..n] != sep;
        assert t[1..] == s[k + 1..];
      }
      CountSkipsOccurrence(s, sep, k + 1);
    }
  }

  /** Dropping a prefix never adds occurrences. */
  lemma {:induction false} CountSuffix(s: string, sub: string, i: nat)
    requires sub != "" && i <= |s|
    ensures CountOcc(s[i..], sub) <= CountOcc(s, sub)
    decreases i
  {
    if i > 0 {
      CountSuffix(s[1..], sub, i - 1);
      assert s[1..][i - 1..] == s[i..];
    }
  }

  /** A string that starts and ends with `sub`, with anything between, holds it at least twice. */
  lemma {:induction false} CountBothEnds(sub: string, middle: string)
    requires sub != ""
    ensures CountOcc(sub + middle + sub, sub) >= 2
  {
    var n := |sub|;
    var s := sub + middle + sub;
    assert s[..n] == sub;
    var rest := s[1..];
    assert rest[|rest| - n..] == sub;
    assert CountOcc(sub, sub) >= 1 by { assert sub[..n] == sub; }
    CountSuffix(rest, sub, |rest| - n);
  }

  /** For a head-unique separator, `Split` yields one piece more than there are occurrences. */
  lemma {:induction false} SplitCount(s: string, sep: string)
    requires sep != "" && HeadUnique(sep)
    ensures |Split(s, sep)| == CountOcc(s, sep) + 1
    decreases |s|
  {
    var n := |sep|;
    if |s| < n {
    } else if s[..n] == sep {
      SplitCount(s[n..], sep);
      CountSkipsOccurrence(s, sep, 1);
    } else {
      SplitCount(s[1..], sep);
    }
  }

  /** Splitting a string on a character it does not contain gives the string itself. */
  lemma {:induction false} SplitWithoutSep(a: string, c: char)
    requires c !in a
    ensures Split(a, [c]) == [a]
    decreases |a|
  {
    if |a| >= 1 {
      assert a[..1] != [c] by { assert a[..1][0] == a[0]; }
      SplitWithoutSep(a[1..], c);
      assert [a[0]] + a[1..] == a;
    }
  }

  /** The first occurrence of a one-character separator ends the first piece. */
  lemma {:induction false} SplitAtFirst(a: string, c: char, rest: string)
    requires c !in a
    ensures Split(a + [c] + rest, [c]) == [a] + Split(rest, [c])
    decreases |a|
  {
    var s := a + [c] + rest;
    if a == [] {
      assert s[..1] == [c];
      assert s[1..] == rest;
    } else {
      assert s[..1] != [c] by { assert s[..1][0] == a[0]; }
      assert s[1..] == a[1..] + [c] + rest;
      SplitAtFirst(a[1..], c, rest);
      assert [a[0]] + a[1..] == a;
    }
  }

  // ---------------------------------------------------------------------
  // strings.TrimSpace
  // ---------------------------------------------------------------------

  /** Go's `unicode.IsSpace`: the Latin-1 spaces and the other Unicode White_Space characters. */
  predicate IsSpace(c: char)
  {
    var n := c as int;
    (0x09 <= n <= 0x0D) || n == 0x20 || n == 0x85 || n == 0xA0
    || n == 0x1680 || (0x2000 <= n <= 0x200A) || n == 0x2028 || n == 0x2029
    || n == 0x202F || n == 0x205F || n == 0x3000
  }

  predicate AllSpace(s: string)
  {
    forall i :: 0 <= i < |s| ==> IsSpace(s[i])
  }

  /** `s` without its leading white space. */
  function TrimLeft(s: string): string
  {
    if s != [] && IsSpace(s[0]) then TrimLeft(s[1..]) else s
  }

  /** `s` without its trailing white space. */
  function TrimRight(s: string): string
  {
    if s != [] && IsSpace(s[|s| - 1]) then TrimRight(s[..|s| - 1]) else s
  }

  /** TrimLeft removes a white-space prefix and nothing more. */
  lemma {:induction false} TrimLeftSpec(s: string)
    ensures |TrimLeft(s)| <= |s| && TrimLeft(s) == s[|s| - |TrimLeft(s)|..]
    ensures AllSpace(s[..|s| - |TrimLeft(s)|])
    ensures TrimLeft(s) != [] ==> !IsSpace(TrimLeft(s)[0])
  {
    if s != [] && IsSpace(s[0]) {
      TrimLeftSpec(s[1..]);
      var r := TrimLeft(s[1..]);
      var m := |s| - |r|;
      assert s[1..][..|s| - 1 - |r|] == s[1..m];
      forall i | 0 <= i < m ensures IsSpace(s[..m][i]) {
        if i > 0 {
          assert s[..m][i] == s[1..m][i - 1];
        }
      }
    }
  }

  /** TrimRight removes a white-space suffix and nothing more. */
  lemma {:induction false} TrimRightSpec(s: string)
    ensures |TrimRight(s)| <= |s| && TrimRight(s) == s[..|TrimRight(s)|]
    ensures AllSpace(s[|TrimRight(s)|..])
    ensures TrimRight(s) != [] ==> !IsSpace(TrimRight(s)[|TrimRight(s)| - 1])
  {
    if s != [] && IsSpace(s[|s| - 1]) {
      var init := s[..|s| - 1];
      TrimRightSpec(init);
      var r := TrimRight(init);
      assert init[..|r|] == s[..|r|];
      forall i | 0 <= i < |s| - |r| ensures IsSpace(s[|r|..][i]) {
        if i < |s| - 1 - |r| {
          assert s[|r|..][i] == init[|r|..][i];
        }
      }
    }
  }

  /** Go's `strings.TrimSpace`. */
  function TrimSpace(s: string): string
  {
    TrimRight(TrimLeft(s))
  }

  /**
   * What TrimSpace promises: the result is a contiguous slice of the input
   * that neither starts nor ends with white space, and everything cut off is
   * white space; it is empty exactly when the input is all white space.
   */
  lemma {:induction false} TrimSpaceSpec(s: string)
    ensures exists i, j :: 0 <= i <= j <= |s| && TrimSpace(s) == s[i..j]
                           && AllSpace(s[..i]) && AllSpace(s[j..])
    ensures TrimSpace(s) != [] ==> !IsSpace(TrimSpace(s)[0]) && !IsSpace(TrimSpace(s)[|TrimSpace(s)| - 1])
    ensures TrimSpace(s) == [] <==> AllSpace(s)
  {
    var l := TrimLeft(s);
    var r := TrimRight(l);
    TrimLeftSpec(s);
    TrimRightSpec(l);
    var i := |s| - |l|;
    var j := i + |r|;
    assert s[i..j] == r;
    assert s[j..] == l[|r|..];
    if r == [] {
      assert l == [];
      assert s[..i] == s;
    }
  }

  /** Trimming twice is trimming once. */
  lemma {:induction false} TrimSpaceIdempotent(s: string)
    ensures TrimSpace(TrimSpace(s)) == TrimSpace(s)
  {
    var t := TrimSpace(s);
    TrimSpaceSpec(s);
  }

  /** A string that neither starts nor ends with white space is left as it is. */
  lemma {:induction false} TrimSpaceKeeps(s: string)
    requires s != [] ==> !IsSpace(s[0]) && !IsSpace(s[|s| - 1])
    ensures TrimSpace(s) == s
  {
  }
}
