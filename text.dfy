/**
 * The few string operations the dashboard uses: Python's `str.strip()`,
 * `str.upper()`, `str.split('\n')` and `'\n'.join(...)`.
 */
module Text {

  /** Python's `str.isspace()` for one character (the characters `strip()` removes). */
  predicate IsSpace(c: char)
  {
    var n := c as int;
    || 0x09 <= n <= 0x0D
    || 0x1C <= n <= 0x20
    || n == 0x85 || n == 0xA0 || n == 0x1680
    || 0x2000 <= n <= 0x200A
    || n == 0x2028 || n == 0x2029 || n == 0x202F || n == 0x205F || n == 0x3000
  }

  predicate AllSpace(s: string)
  {
    forall i :: 0 <= i < |s| ==> IsSpace(s[i])
  }

  /** Neither end of `s` is whitespace. */
  predicate Trimmed(s: string)
  {
    s == [] || (!IsSpace(s[0]) && !IsSpace(s[|s| - 1]))
  }

  /** `lstrip()`: drop the leading whitespace, and only that. */
  function TrimStart(s: string): (r: string)
    ensures |r| <= |s| && r == s[|s| - |r|..]
    ensures AllSpace(s[..|s| - |r|])
    ensures r == [] || !IsSpace(r[0])
  {
    if s != [] && IsSpace(s[0]) then
      var r := TrimStart(s[1..]);
      assert s[..|s| - |r|] == [s[0]] + s[1..][..|s| - 1 - |r|];
      r
    else s
  }

  /** `rstrip()`: drop the trailing whitespace, and only that. */
  function TrimEnd(s: string): (r: string)
    ensures |r| <= |s| && r == s[..|r|]
    ensures AllSpace(s[|r|..])
    ensures r == [] || !IsSpace(r[|r| - 1])
  {
    if s != [] && IsSpace(s[|s| - 1]) then
      var r := TrimEnd(s[..|s| - 1]);
      assert s[|r|..] == s[..|s| - 1][|r|..] + [s[|s| - 1]];
      r
    else s
  }

  /**
   * `strip()`: the result has no whitespace at either end, is empty exactly
   * when `s` is all whitespace, and is `s` itself when `s` already has no
   * whitespace at its ends.
   */
  function Strip(s: string): (r: string)
    ensures |r| <= |s| && Trimmed(r)
    ensures r == [] <==> AllSpace(s)
    ensures Trimmed(s) ==> r == s
  {
    StripTrimmed(s);
    StripEmpty(s);
    StripUnchanged(s);
    TrimEnd(TrimStart(s))
  }

  lemma {:induction false} StripTrimmed(s: string)
    ensures Trimmed(TrimEnd(TrimStart(s)))
  {
    var t := TrimStart(s);
    var r := TrimEnd(t);
    if r != [] {
      assert r[0] == t[0];
    }
  }

  lemma {:induction false} StripEmpty(s: string)
    ensures TrimEnd(TrimStart(s)) == [] <==> AllSpace(s)
  {
    if TrimEnd(TrimStart(s)) == [] {
      EmptyStripIsBlank(s);
    }
  }

  lemma {:induction false} EmptyStripIsBlank(s: string)
    requires TrimEnd(TrimStart(s)) == []
    ensures AllSpace(s)
  {
    NothingAfterTrimStart(s);
    TrimStartEmpty(s, TrimStart(s));
  }

  lemma {:induction false} NothingAfterTrimStart(s: string)
    requires TrimEnd(TrimStart(s)) == []
    ensures TrimStart(s) == []
  {
    BlankAfterTrimStart(TrimStart(s));
  }

  /** Text whose `rstrip()` is empty and which starts with a non-space is empty. */
  lemma {:induction false} BlankAfterTrimStart(t: string)
    requires TrimEnd(t) == [] && (t == [] || !IsSpace(t[0]))
    ensures t == []
  {
    assert t[0..] == t;
  }

  /** Text whose `lstrip()` is empty is all whitespace. */
  lemma {:induction false} TrimStartEmpty(s: string, t: string)
    requires t == TrimStart(s) && t == []
    ensures AllSpace(s)
  {
    assert s[..|s|] == s;
  }

  lemma {:induction false} StripUnchanged(s: string)
    ensures Trimmed(s) ==> TrimEnd(TrimStart(s)) == s
  {
  }

  /**
   * Stripping removes exactly the whitespace padding around a core whose
   * ends are not whitespace.
   */
  lemma {:induction false} StripPadded(a: string, core: string, b: string)
    requires AllSpace(a) && AllSpace(b) && Trimmed(core) && core != []
    ensures Strip(a + core + b) == core
  {
    var s := a + core + b;
    assert s == a + (core + b);
    assert (core + b)[0] == core[0];
    StartStopsAtCore(a, core + b);
    EndStopsAtCore(core, b);
    assert Strip(s) == TrimEnd(TrimStart(s)) == TrimEnd(core + b);
  }

  lemma {:induction false} StartStopsAtCore(a: string, rest: string)
    requires AllSpace(a) && rest != [] && !IsSpace(rest[0])
    ensures TrimStart(a + rest) == rest
  {
    if a != [] {
      assert (a + rest)[1..] == a[1..] + rest;
      StartStopsAtCore(a[1..], rest);
    } else {
      assert a + rest == rest;
    }
  }

  lemma {:induction false} EndStopsAtCore(rest: string, b: string)
    requires AllSpace(b) && rest != [] && !IsSpace(rest[|rest| - 1])
    ensures TrimEnd(rest + b) == rest
  {
    if b != [] {
      assert (rest + b)[..|rest + b| - 1] == rest + b[..|b| - 1];
      EndStopsAtCore(rest, b[..|b| - 1]);
    } else {
      assert rest + b == rest;
    }
  }

  /** `str.upper()` on one character, for the ASCII letters. */
  function UpperChar(c: char): (u: char)
    ensures IsSpace(u) == IsSpace(c)
    ensures !('a' <= u <= 'z')
  {
    if 'a' <= c <= 'z' then (c as int - 32) as char else c
  }

  /** `str.upper()`, for the ASCII letters; every other character is kept. */
  function Upper(s: string): (r: string)
    ensures |r| == |s|
    ensures forall i :: 0 <= i < |s| ==> r[i] == UpperChar(s[i])
    ensures Trimmed(s) ==> Trimmed(r)
  {
    seq(|s|, i requires 0 <= i < |s| => UpperChar(s[i]))
  }

  /** Upper-casing twice is upper-casing once. */
  lemma {:induction false} UpperIdempotent(s: string)
    ensures Upper(Upper(s)) == Upper(s)
  {
  }

  /** `s.split('\n')`: the pieces between newlines, at least one. */
  function Lines(s: string): (ls: seq<string>)
    ensures |ls| >= 1
    ensures forall k :: 0 <= k < |ls| ==> '\n' !in ls[k]
  {
    if s == [] then [[]]
    else
      var rest := Lines(s[1..]);
      if s[0] == '\n' then [[]] + rest
      else [[s[0]] + rest[0]] + rest[1..]
  }

  /** The number of characters in all the lines together. */
  function TotalLength(ls: seq<string>): nat
  {
    if ls == [] then 0 else |ls[0]| + TotalLength(ls[1..])
  }

  /** `'\n'.join(ls)`: the lines with one newline between each two of them. */
  function Join(ls: seq<string>): (s: string)
    ensures ls != [] ==> |s| == TotalLength(ls) + |ls| - 1
  {
    if ls == [] then []
    else if |ls| == 1 then ls[0]
    else ls[0] + ['\n'] + Join(ls[1..])
  }

  /** Splitting at the newlines and joining with newlines gives back the text. */
  lemma {:induction false} JoinLines(s: string)
    ensures Join(Lines(s)) == s
  {
    if s != [] {
      var rest := Lines(s[1..]);
      JoinLines(s[1..]);
      if s[0] == '\n' {
        assert Lines(s)[1..] == rest;
      } else {
        var ls := Lines(s);
        assert ls[1..] == rest[1..];
        if |rest| == 1 {
          assert Join(ls) == [s[0]] + rest[0];
        } else {
          assert Join(rest) == rest[0] + ['\n'] + Join(rest[1..]);
          assert Join(ls) == [s[0]] + rest[0] + ['\n'] + Join(rest[1..]);
        }
      }
    }
  }

  /** Joining newline-free lines and splitting again gives back the lines. */
  lemma {:induction false} LinesJoin(ls: seq<string>)
    requires |ls| >= 1 && forall k :: 0 <= k < |ls| ==> '\n' !in ls[k]
    ensures Lines(Join(ls)) == ls
  {
    if |ls| == 1 {
      NoNewlineOneLine(ls[0]);
    } else {
      LinesJoin(ls[1..]);
      LinesAfterLine(ls[0], Join(ls[1..]));
      assert [ls[0]] + ls[1..] == ls;
    }
  }

  lemma {:induction false} NoNewlineOneLine(s: string)
    requires '\n' !in s
    ensures Lines(s) == [s]
  {
    if s != [] {
      assert '\n' !in s[1..] by {
        forall i | 0 <= i < |s[1..]| ensures s[1..][i] != '\n' {
          assert s[1..][i] == s[i + 1];
        }
      }
      NoNewlineOneLine(s[1..]);
      assert [s[0]] + s[1..] == s;
    }
  }

  lemma {:induction false} LinesAfterLine(line: string, rest: string)
    requires '\n' !in line
    ensures Lines(line + ['\n'] + rest) == [line] + Lines(rest)
  {
    if line == [] {
      assert line + ['\n'] + rest == ['\n'] + rest;
      assert (['\n'] + rest)[1..] == rest;
    } else {
      var s := line + ['\n'] + rest;
      assert s[1..] == line[1..] + ['\n'] + rest;
      assert '\n' !in line[1..] by {
        forall i | 0 <= i < |line[1..]| ensures line[1..][i] != '\n' {
          assert line[1..][i] == line[i + 1];
        }
      }
      LinesAfterLine(line[1..], rest);
      assert [line[0]] + line[1..] == line;
    }
  }
}
