/** The three string operations the tab relies on: `String.prototype.indexOf`,
    `replace(/\s+/, "")` (no `g` flag: only the first whitespace run goes) and
    `toLowerCase`. */
module Strings {

  /** `sub` occurs in `s` starting at index `i`. */
  predicate OccursAt(s: string, sub: string, i: int)
  {
    0 <= i && i + |sub| <= |s| && s[i..i + |sub|] == sub
  }

  ghost predicate Occurs(s: string, sub: string)
  {
    exists i :: OccursAt(s, sub, i)
  }

  /** `s.indexOf(sub, k)`: the first occurrence at or after `k`, or -1. */
  function IndexFrom(s: string, sub: string, k: nat): (r: int)
    requires k <= |s|
    decreases |s| - k
    ensures r == -1 || (k <= r && OccursAt(s, sub, r))
    ensures forall j :: k <= j < (if r == -1 then |s| + 1 else r) ==> !OccursAt(s, sub, j)
  {
    if k + |sub| > |s| then -1
    else if s[k..k + |sub|] == sub then k
    else IndexFrom(s, sub, k + 1)
  }

  /** `s.indexOf(sub)`. */
  function IndexOf(s: string, sub: string): (r: int)
    ensures r == -1 <==> !Occurs(s, sub)
    ensures r != -1 ==> OccursAt(s, sub, r) && forall j :: 0 <= j < r ==> !OccursAt(s, sub, j)
  {
    var r := IndexFrom(s, sub, 0);
    assert r == -1 ==> forall j :: !OccursAt(s, sub, j) by {
      if r == -1 {
        forall j ensures !OccursAt(s, sub, j) {
          // Case split only: inside `0..|s|` the search's postcondition
          // applies, outside it `OccursAt` is false by its bounds.
          if 0 <= j <= |s| { } else { }
        }
      }
    }
    r
  }

  /** An occurrence of a slash-free string covers no slash. */
  lemma SlashFreeOccurrence(s: string, sub: string, i: int)
    requires OccursAt(s, sub, i) && '/' !in sub
    ensures forall p :: i <= p < i + |sub| ==> s[p] != '/'
  {
    forall p | i <= p < i + |sub| ensures s[p] != '/' {
      assert s[p] == sub[p - i];
    }
  }

  /** An occurrence of a slash-free string in `a + "/" + b` lies wholly in
      `a` or wholly in `b`. */
  lemma {:induction false} OccursAcrossSlash(a: string, b: string, sub: string)
    requires '/' !in sub
    ensures Occurs(a + "/" + b, sub) <==> Occurs(a, sub) || Occurs(b, sub)
  {
    var s := a + "/" + b;
    if Occurs(s, sub) {
      var i :| OccursAt(s, sub, i);
      SlashFreeOccurrence(s, sub, i);
      assert s[|a|] == '/';
      assert i + |sub| <= |a| || i > |a|;
      if i + |sub| <= |a| {
        assert s[i..i + |sub|] == a[i..i + |sub|];
        assert OccursAt(a, sub, i);
      } else {
        assert s[i..i + |sub|] == b[i - |a| - 1..i - |a| - 1 + |sub|];
        assert OccursAt(b, sub, i - |a| - 1);
      }
    }
    if Occurs(a, sub) {
      var i :| OccursAt(a, sub, i);
      assert s[i..i + |sub|] == a[i..i + |sub|];
      assert OccursAt(s, sub, i);
    }
    if Occurs(b, sub) {
      var i :| OccursAt(b, sub, i);
      assert s[|a| + 1 + i..|a| + 1 + i + |sub|] == b[i..i + |sub|];
      assert OccursAt(s, sub, |a| + 1 + i);
    }
  }

  /** The characters the ECMAScript `\s` class matches. */
  predicate IsSpace(c: char)
  {
    || c == ' ' || c == '\t' || c == '\n' || c == '\r' || c == '\U{B}' || c == '\U{C}'
    || c == '\U{A0}' || c == '\U{1680}' || ('\U{2000}' <= c <= '\U{200A}')
    || c == '\U{2028}' || c == '\U{2029}' || c == '\U{202F}' || c == '\U{205F}'
    || c == '\U{3000}' || c == '\U{FEFF}'
  }

  /** Index of the first whitespace character, or `|s|` when there is none. */
  function FirstSpace(s: string): (r: nat)
    ensures r <= |s|
    ensures r < |s| ==> IsSpace(s[r])
    ensures forall j :: 0 <= j < r ==> !IsSpace(s[j])
  {
    if s == [] then 0
    else if IsSpace(s[0]) then 0
    else 1 + FirstSpace(s[1..])
  }

  /** Length of the whitespace run at the front of `s`. */
  function LeadingSpaces(s: string): (r: nat)
    ensures r <= |s|
    ensures forall j :: 0 <= j < r ==> IsSpace(s[j])
    ensures r == |s| || !IsSpace(s[r])
  {
    if s != [] && IsSpace(s[0]) then 1 + LeadingSpaces(s[1..]) else 0
  }

  /** `s[i..j]` is the first whitespace run of `s`, empty at `|s|` when `s`
      has no whitespace. */
  ghost predicate FirstSpaceRun(s: string, i: int, j: int)
  {
    && 0 <= i <= j <= |s|
    && (forall k :: 0 <= k < i ==> !IsSpace(s[k]))
    && (forall k :: i <= k < j ==> IsSpace(s[k]))
    && (j == |s| || !IsSpace(s[j]))
    && (i < |s| ==> i < j)
  }

  /** `s.replace(/\s+/, "")`: the first whitespace run is cut out and
      everything else is kept. */
  function ReplaceFirstSpaceRun(s: string): (r: string)
    ensures exists i, j :: FirstSpaceRun(s, i, j) && r == s[..i] + s[j..]
  {
    var i := FirstSpace(s);
    var j := i + LeadingSpaces(s[i..]);
    assert FirstSpaceRun(s, i, j);
    s[..i] + s[j..]
  }

  /** A string without whitespace is left as it is. */
  lemma NoSpaceUnchanged(s: string)
    requires forall j :: 0 <= j < |s| ==> !IsSpace(s[j])
    ensures ReplaceFirstSpaceRun(s) == s
  {
  }

  predicate IsUpper(c: char)
  {
    'A' <= c <= 'Z'
  }

  /** `toLowerCase` on one character (ASCII letters only). */
  function LowerChar(c: char): char
  {
    if IsUpper(c) then (c as int - 'A' as int + 'a' as int) as char else c
  }

  /** `s.toLowerCase()` for ASCII letters. */
  function ToLower(s: string): (r: string)
    ensures |r| == |s|
    ensures forall j :: 0 <= j < |r| ==> !IsUpper(r[j])
    ensures forall j :: 0 <= j < |s| && !IsUpper(s[j]) ==> r[j] == s[j]
    ensures forall j :: 0 <= j < |s| && IsUpper(s[j]) ==> r[j] as int == s[j] as int + 32
    ensures forall j :: 0 <= j < |s| ==> r[j] == LowerChar(s[j])
  {
    if s == [] then [] else [LowerChar(s[0])] + ToLower(s[1..])
  }
}
