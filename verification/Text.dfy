/** The few string operations of Python the model needs. Blanks are the ASCII ones. */
module Text {

  predicate IsSpace(c: char) {
    c == ' ' || '\t' <= c <= '\r' || 28 as char <= c <= 31 as char
  }

  predicate Blank(s: string) {
    forall i :: 0 <= i < |s| ==> IsSpace(s[i])
  }

  predicate EndsWith(s: string, suffix: string) {
    |suffix| <= |s| && s[|s| - |suffix|..] == suffix
  }

  function Strip(s: string): string {
    if s == "" then ""
    else if IsSpace(s[0]) then Strip(s[1..])
    else if IsSpace(s[|s| - 1]) then Strip(s[..|s| - 1])
    else s
  }

  /** ASCII letters in lower case. */
  function Lower(s: string): string {
    seq(|s|, i requires 0 <= i < |s| => if 'A' <= s[i] <= 'Z' then s[i] + 32 as char else s[i])
  }

  /** The text before the first `c`; all of it when there is none. */
  function Before(s: string, c: char): (r: string)
    ensures r <= s
  {
    if s == "" || s[0] == c then "" else [s[0]] + Before(s[1..], c)
  }

  /** `s`, or the fallback when `s` is empty: Python's `s or other`. */
  function OrElse(s: string, other: string): string {
    if s == "" then other else s
  }

  lemma {:induction false} BeforeIs(s: string, c: char)
    ensures c !in Before(s, c)
    ensures |Before(s, c)| < |s| ==> s[|Before(s, c)|] == c
  {
    if s != "" { BeforeIs(s[1..], c); }
  }

  lemma {:induction false} BeforeAll(s: string, c: char)
    requires c !in s
    ensures Before(s, c) == s
  {
    if s != "" { BeforeAll(s[1..], c); }
  }

  lemma BeforeSplits(s: string, c: char)
    requires c in s
    ensures c !in Before(s, c) && |Before(s, c)| < |s|
    ensures s == Before(s, c) + [c] + s[|Before(s, c)| + 1..]
  {
    BeforeIs(s, c);
  }

  lemma {:induction false} BeforeConcat(s: string, c: char, rest: string)
    requires c !in s
    ensures Before(s + [c] + rest, c) == s
  {
    var t := s + [c] + rest;
    if s == "" {
      assert t[0] == c;
    } else {
      assert t[0] == s[0] && t[1..] == s[1..] + [c] + rest;
      BeforeConcat(s[1..], c, rest);
    }
  }

  lemma {:induction false} StripProperties(s: string)
    ensures forall ch :: ch in Strip(s) ==> ch in s
    ensures Strip(s) != "" ==> !IsSpace(Strip(s)[0]) && !IsSpace(Strip(s)[|Strip(s)| - 1])
    decreases |s|
  {
    if s != "" {
      if IsSpace(s[0]) { StripProperties(s[1..]); }
      else if IsSpace(s[|s| - 1]) { StripProperties(s[..|s| - 1]); }
    }
  }

  /** Stripping takes off the blanks around a text and nothing else. */
  lemma {:induction false} StripIs(lead: string, core: string, trail: string)
    requires Blank(lead) && Blank(trail)
    requires core != "" ==> !IsSpace(core[0]) && !IsSpace(core[|core| - 1])
    ensures Strip(lead + core + trail) == core
    decreases |lead| + |trail|
  {
    var s := lead + core + trail;
    if lead != "" {
      assert s[0] == lead[0] && s[1..] == lead[1..] + core + trail;
      StripIs(lead[1..], core, trail);
    } else if trail != "" {
      assert s == core + trail;
      if core == "" {
        assert s == trail && s[1..] == "" + "" + trail[1..];
        StripIs("", "", trail[1..]);
      } else {
        var front := trail[..|trail| - 1];
        assert s[0] == core[0] && s[|s| - 1] == trail[|trail| - 1] && s[..|s| - 1] == "" + core + front;
        StripIs("", core, front);
      }
    } else {
      assert s == core;
    }
  }
}
