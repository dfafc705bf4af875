/**
 * The few JavaScript string operations the workflow step relies on:
 * `String.prototype.replace` with a string pattern, `trim`, and `toLowerCase`
 * as far as ASCII letters are concerned.
 */
module JsText {

  /** `p` occurs in `s` starting at index `i`. */
  predicate OccursAt(s: string, p: string, i: nat) {
    i + |p| <= |s| && s[i..i + |p|] == p
  }

  /** `s.includes(p)` */
  ghost predicate Contains(s: string, p: string) {
    exists i: nat :: OccursAt(s, p, i)
  }

  /** An occurrence in `x` is an occurrence in `a + x`, shifted by `|a|`, and conversely. */
  lemma OccursAfter(a: string, x: string, p: string, i: nat)
    ensures OccursAt(a + x, p, |a| + i) <==> OccursAt(x, p, i)
  {
    if i + |p| <= |x| {
      assert (a + x)[|a| + i..|a| + i + |p|] == x[i..i + |p|];
    }
  }

  /** Dropping the first character moves every occurrence one place to the left. */
  lemma OccursInTail(s: string, p: string, i: nat)
    requires |s| > 0
    ensures OccursAt(s[1..], p, i) <==> OccursAt(s, p, i + 1)
  {
    assert s == s[..1] + s[1..];
    OccursAfter(s[..1], s[1..], p, i);
  }

  /**
   * `s.replace(p, "")` for a string pattern: the FIRST occurrence of `p`,
   * wherever it is, is removed; without an occurrence `s` is returned as it is.
   */
  function ReplaceFirst(s: string, p: string): (r: string)
    ensures |r| <= |s|
    ensures !Contains(s, p) ==> r == s
    ensures Contains(s, p) ==> |r| == |s| - |p|
    decreases |s|
  {
    if |s| < |p| then s
    else if s[..|p|] == p then
      assert OccursAt(s, p, 0);
      s[|p|..]
    else
      assert Contains(s[1..], p) ==> Contains(s, p) by {
        if Contains(s[1..], p) {
          var i: nat :| OccursAt(s[1..], p, i);
          OccursInTail(s, p, i);
        }
      }
      assert !OccursAt(s, p, 0);
      assert Contains(s, p) ==> Contains(s[1..], p) by {
        if Contains(s, p) {
          var i: nat :| OccursAt(s, p, i);
          OccursInTail(s, p, i - 1);
        }
      }
      [s[0]] + ReplaceFirst(s[1..], p)
  }

  /** The removal happens at the leftmost occurrence, and only there. */
  lemma {:induction false} ReplaceFirstAtLeftmost(s: string, p: string, i: nat)
    requires OccursAt(s, p, i)
    requires forall j: nat :: j < i ==> !OccursAt(s, p, j)
    ensures ReplaceFirst(s, p) == s[..i] + s[i + |p|..]
    decreases i
  {
    if i == 0 {
      assert s[..|p|] == p;
    } else {
      assert !OccursAt(s, p, 0);
      assert s[..|p|] != p;
      OccursInTail(s, p, i - 1);
      forall j: nat | j < i - 1 ensures !OccursAt(s[1..], p, j) {
        OccursInTail(s, p, j);
      }
      ReplaceFirstAtLeftmost(s[1..], p, i - 1);
      assert [s[0]] + s[1..][..i - 1] == s[..i];
      assert s[1..][i - 1 + |p|..] == s[i + |p|..];
    }
  }

  /**
   * The characters `trim` removes: the WhiteSpace and LineTerminator code
   * points of section 12.2 and 12.3 of ECMA-262.
   */
  predicate IsJsWhitespace(c: char) {
    var n := c as int;
    n == 0x09 || n == 0x0A || n == 0x0B || n == 0x0C || n == 0x0D || n == 0x20
    || n == 0xA0 || n == 0x1680 || (0x2000 <= n <= 0x200A) || n == 0x2028
    || n == 0x2029 || n == 0x202F || n == 0x205F || n == 0x3000 || n == 0xFEFF
  }

  /** `s.trimStart()`: a suffix of `s`. */
  function TrimStart(s: string): (r: string)
    ensures |r| <= |s| && r == s[|s| - |r|..]
  {
    if |s| > 0 && IsJsWhitespace(s[0]) then TrimStart(s[1..]) else s
  }

  /** `trimStart` drops exactly the leading whitespace: what it drops is whitespace, and what it keeps starts with none. */
  lemma {:induction false} TrimStartDropsWhitespace(s: string)
    ensures var r := TrimStart(s);
            && (forall i :: 0 <= i < |s| - |r| ==> IsJsWhitespace(s[i]))
            && (|r| > 0 ==> !IsJsWhitespace(r[0]))
  {
    if |s| > 0 && IsJsWhitespace(s[0]) {
      TrimStartDropsWhitespace(s[1..]);
      var r := TrimStart(s);
      forall i | 0 < i < |s| - |r| ensures IsJsWhitespace(s[i]) {
        assert s[i] == s[1..][i - 1];
      }
    }
  }

  /** `s.trimEnd()`: a prefix of `s`. */
  function TrimEnd(s: string): (r: string)
    ensures |r| <= |s| && r == s[..|r|]
  {
    if |s| > 0 && IsJsWhitespace(s[|s| - 1]) then TrimEnd(s[..|s| - 1]) else s
  }

  /** `trimEnd` drops exactly the trailing whitespace: what it drops is whitespace, and what it keeps ends with none. */
  lemma {:induction false} TrimEndDropsWhitespace(s: string)
    ensures var r := TrimEnd(s);
            && (forall i :: |r| <= i < |s| ==> IsJsWhitespace(s[i]))
            && (|r| > 0 ==> !IsJsWhitespace(r[|r| - 1]))
  {
    if |s| > 0 && IsJsWhitespace(s[|s| - 1]) {
      TrimEndDropsWhitespace(s[..|s| - 1]);
      var r := TrimEnd(s);
      forall i | |r| <= i < |s| - 1 ensures IsJsWhitespace(s[i]) {
        assert s[i] == s[..|s| - 1][i];
      }
    }
  }

  /** `s.trim()` */
  function Trim(s: string): string {
    TrimEnd(TrimStart(s))
  }

  /** `!s || s.trim() === ""`: the empty string is falsy, and trims to "" as well. */
  predicate IsBlank(s: string) {
    Trim(s) == ""
  }

  /** A string is blank exactly when every one of its characters is whitespace. */
  lemma BlankIffAllWhitespace(s: string)
    ensures IsBlank(s) <==> forall i :: 0 <= i < |s| ==> IsJsWhitespace(s[i])
  {
    var u := TrimStart(s);
    var k := |s| - |u|;
    TrimStartDropsWhitespace(s);
    TrimEndDropsWhitespace(u);
    assert |u| > 0 ==> u[0] == s[k];
    assert forall i :: k <= i < |s| ==> s[i] == u[i - k];
  }

  /** `toLowerCase` on one character, for the ASCII letters. */
  function AsciiLower(c: char): (d: char)
    ensures 'A' <= c <= 'Z' ==> 'a' <= d <= 'z' && d as int == c as int + 32
    ensures !('A' <= c <= 'Z') ==> d == c
  {
    if 'A' <= c <= 'Z' then (c as int + 32) as char else c
  }

  /** `s.toLowerCase()`, character by character (ASCII case mapping only). */
  function LowerCase(s: string): (r: string)
    ensures |r| == |s|
    ensures forall i :: 0 <= i < |s| ==> r[i] == AsciiLower(s[i])
  {
    if s == [] then [] else [AsciiLower(s[0])] + LowerCase(s[1..])
  }
}
