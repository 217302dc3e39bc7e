/**
 * The character-level helpers the adapter relies on: the whitespace class
 * shared by the regular expression `\s` and `str.strip()`, ASCII digits,
 * `str.lower()` and `str.strip()`, all restricted to ASCII.
 */
module Text {

  /** ASCII characters for which Python's `str.isspace()` holds (and that `\s`
      matches): TAB, LF, VT, FF, CR (9..13), the separators FS, GS, RS, US
      (28..31) and SPACE (32). */
  predicate IsSpace(c: char) {
    9 <= c as int <= 13 || 28 <= c as int <= 32
  }

  predicate IsDigit(c: char) {
    '0' <= c <= '9'
  }

  function ToLower(c: char): char {
    if 'A' <= c <= 'Z' then (c as int + 32) as char else c
  }

  /** `str.lower()` over ASCII letters. */
  function Lower(s: string): (r: string)
    ensures |r| == |s|
    ensures forall k :: 0 <= k < |s| ==> r[k] == ToLower(s[k])
  {
    if s == [] then [] else [ToLower(s[0])] + Lower(s[1..])
  }

  /** `str.lstrip()`: drops the leading whitespace. */
  function TrimStart(s: string): (r: string)
    ensures |r| <= |s| && (r != [] ==> !IsSpace(r[0]))
  {
    if s != [] && IsSpace(s[0]) then TrimStart(s[1..]) else s
  }

  /** `str.rstrip()`: drops the trailing whitespace. */
  function TrimEnd(s: string): (r: string)
    ensures |r| <= |s| && (r != [] ==> !IsSpace(r[|r| - 1]))
  {
    if s != [] && IsSpace(s[|s| - 1]) then TrimEnd(s[..|s| - 1]) else s
  }

  /** What `lstrip` removes is whitespace, and only the leading part. */
  lemma {:induction false} TrimStartSpec(s: string)
    ensures var r := TrimStart(s);
      r == s[|s| - |r|..] && forall k :: 0 <= k < |s| - |r| ==> IsSpace(s[k])
  {
    if s != [] && IsSpace(s[0]) {
      TrimStartSpec(s[1..]);
    }
  }

  /** What `rstrip` removes is whitespace, and only the trailing part. */
  lemma {:induction false} TrimEndSpec(s: string)
    ensures var r := TrimEnd(s);
      r == s[..|r|] && forall k :: |r| <= k < |s| ==> IsSpace(s[k])
  {
    if s != [] && IsSpace(s[|s| - 1]) {
      TrimEndSpec(s[..|s| - 1]);
    }
  }

  /** `str.strip()`. */
  function Strip(s: string): (r: string)
    ensures |r| <= |s|
    ensures r != [] ==> !IsSpace(r[0]) && !IsSpace(r[|r| - 1])
  {
    var t := TrimStart(s);
    var r := TrimEnd(t);
    TrimEndSpec(t);
    assert r != [] ==> r[0] == t[0];
    r
  }

  /** Stripping adds no character. */
  lemma StripChars(s: string)
    ensures forall c :: c in Strip(s) ==> c in s
  {
    var t := TrimStart(s);
    TrimStartSpec(s);
    TrimEndSpec(t);
    var r := Strip(s);
    assert r == s[|s| - |t|..|s| - |t| + |r|];
  }

  /** A string without whitespace at its ends strips to itself. */
  lemma StripKeeps(m: string)
    requires m != [] ==> !IsSpace(m[0]) && !IsSpace(m[|m| - 1])
    ensures Strip(m) == m
  {
    assert TrimStart(m) == m;
    assert TrimEnd(m) == m;
  }

  /** `lstrip` removes a whitespace prefix and stops at the first other
      character. */
  lemma {:induction false} TrimStartCore(a: string, rest: string)
    requires forall k :: 0 <= k < |a| ==> IsSpace(a[k])
    requires rest != [] ==> !IsSpace(rest[0])
    ensures TrimStart(a + rest) == rest
    decreases |a|
  {
    if a != [] {
      assert (a + rest)[1..] == a[1..] + rest;
      TrimStartCore(a[1..], rest);
    } else {
      assert a + rest == rest;
    }
  }

  /** `rstrip` removes a whitespace suffix and stops at the last other
      character. */
  lemma {:induction false} TrimEndCore(m: string, b: string)
    requires forall k :: 0 <= k < |b| ==> IsSpace(b[k])
    requires m != [] ==> !IsSpace(m[|m| - 1])
    ensures TrimEnd(m + b) == m
    decreases |b|
  {
    if b != [] {
      var s := m + b;
      assert s[|s| - 1] == b[|b| - 1];
      assert s[..|s| - 1] == m + b[..|b| - 1];
      TrimEndCore(m, b[..|b| - 1]);
    } else {
      assert m + b == m;
    }
  }

  /** Stripping removes exactly the whitespace at both ends: a string made of
      whitespace, a core that neither starts nor ends with whitespace, and
      more whitespace strips to that core. */
  lemma StripCore(a: string, m: string, b: string)
    requires forall k :: 0 <= k < |a| ==> IsSpace(a[k])
    requires forall k :: 0 <= k < |b| ==> IsSpace(b[k])
    requires m != [] ==> !IsSpace(m[0]) && !IsSpace(m[|m| - 1])
    ensures Strip(a + m + b) == m
  {
    if m == [] {
      var blank := a + b;
      assert forall k :: 0 <= k < |blank| ==> IsSpace(blank[k]) by {
        forall k | 0 <= k < |blank| ensures IsSpace(blank[k]) {
          if k < |a| { assert blank[k] == a[k]; } else { assert blank[k] == b[k - |a|]; }
        }
      }
      TrimStartCore(blank, []);
      assert a + m + b == blank + [];
    } else {
      TrimStartCore(a, m + b);
      assert a + m + b == a + (m + b);
      TrimEndCore(m, b);
    }
  }
}
