/**
 * The few JavaScript string operations the bot catalog is built from:
 * `toLowerCase` (ASCII letters), `includes`/`indexOf`, `replace` with a
 * string pattern (first occurrence only), the global regular-expression
 * replace `/\([^)]*\)/g` with the empty string, `trim`, and the last
 * segment of `split(sep).pop()`.
 */
module JsText {
  import opened Options

  // ---------------------------------------------------------------------
  // toLowerCase
  // ---------------------------------------------------------------------

  predicate IsUpper(c: char)
  {
    'A' <= c <= 'Z'
  }

  function LowerChar(c: char): (r: char)
    ensures IsUpper(c) ==> r as int == c as int + 32
    ensures !IsUpper(c) ==> r == c
  {
    if IsUpper(c) then (c as int + 32) as char else c
  }

  /** `s.toLowerCase()` on the ASCII letters; every other character is kept. */
  function ToLower(s: string): (r: string)
    ensures |r| == |s|
  {
    seq(|s|, i requires 0 <= i < |s| => LowerChar(s[i]))
  }

  /** The lowered string has no upper-case ASCII letter, and lowering it again changes nothing. */
  lemma ToLowerIdempotent(s: string)
    ensures forall i :: 0 <= i < |s| ==> !IsUpper(ToLower(s)[i])
    ensures ToLower(ToLower(s)) == ToLower(s)
  {
    var l := ToLower(s);
    forall i | 0 <= i < |s| ensures !IsUpper(l[i]) && LowerChar(l[i]) == l[i] {
      assert l[i] == LowerChar(s[i]);
    }
  }

  // ---------------------------------------------------------------------
  // includes / indexOf
  // ---------------------------------------------------------------------

  /** sub occurs in s at position k. */
  predicate OccursAt(s: string, sub: string, k: nat)
  {
    k + |sub| <= |s| && s[k..k + |sub|] == sub
  }

  /** `s.indexOf(sub, k)`: the first occurrence at or after k, or None for -1. */
  function IndexFrom(s: string, sub: string, k: nat): (r: Option<nat>)
    requires k <= |s|
    ensures r.Some? ==> k <= r.value && OccursAt(s, sub, r.value)
    ensures r.Some? ==> forall j :: k <= j < r.value ==> !OccursAt(s, sub, j)
    ensures r.None? ==> forall j :: k <= j ==> !OccursAt(s, sub, j)
    decreases |s| - k
  {
    if k + |sub| > |s| then None
    else if s[k..k + |sub|] == sub then Some(k)
    else if k == |s| then None
    else IndexFrom(s, sub, k + 1)
  }

  /** `s.indexOf(sub)`. */
  function IndexOf(s: string, sub: string): Option<nat>
  {
    IndexFrom(s, sub, 0)
  }

  /** `s.includes(sub)`. */
  function Includes(s: string, sub: string): bool
  {
    IndexOf(s, sub).Some?
  }

  /** `includes` holds exactly when there is an occurrence. */
  lemma IncludesIff(s: string, sub: string)
    ensures Includes(s, sub) <==> exists k: nat :: OccursAt(s, sub, k)
  {
    var r := IndexOf(s, sub);
    if r.Some? {
      assert OccursAt(s, sub, r.value);
    }
  }

  // ---------------------------------------------------------------------
  // replace(string, string)
  // ---------------------------------------------------------------------

  /** `s.replace(pattern, replacement)` with a string pattern: the first occurrence only. */
  function ReplaceFirst(s: string, pattern: string, replacement: string): string
  {
    match IndexOf(s, pattern)
    case None => s
    case Some(k) => s[..k] + replacement + s[k + |pattern|..]
  }

  /**
   * Without an occurrence nothing changes; otherwise the first occurrence,
   * and only it, gives way to the replacement: what precedes it holds no
   * occurrence and what follows it is kept as it was.
   */
  lemma ReplaceFirstMeaning(s: string, pattern: string, replacement: string)
    ensures !Includes(s, pattern) ==> ReplaceFirst(s, pattern, replacement) == s
    ensures Includes(s, pattern) ==>
      exists k: nat :: OccursAt(s, pattern, k) &&
        (forall j :: 0 <= j < k ==> !OccursAt(s, pattern, j)) &&
        ReplaceFirst(s, pattern, replacement) == s[..k] + replacement + s[k + |pattern|..]
  {
    var r := IndexOf(s, pattern);
    if r.Some? {
      var k := r.value;
      assert OccursAt(s, pattern, k) && forall j :: 0 <= j < k ==> !OccursAt(s, pattern, j);
    }
  }

  // ---------------------------------------------------------------------
  // replace(/\([^)]*\)/g, '')
  // ---------------------------------------------------------------------

  /** No '(' of s is followed, anywhere later, by a ')': the pattern has nothing left to match. */
  predicate NoGroup(s: string)
  {
    forall i, j :: 0 <= i < j < |s| && s[i] == '(' ==> s[j] != ')'
  }

  /** The position of the first ')' of s, if any. */
  function FirstClose(s: string): (r: Option<nat>)
    ensures r.Some? ==> r.value < |s| && s[r.value] == ')' && forall j :: 0 <= j < r.value ==> s[j] != ')'
    ensures r.None? ==> forall j :: 0 <= j < |s| ==> s[j] != ')'
  {
    if s == [] then None
    else if s[0] == ')' then Some(0)
    else match FirstClose(s[1..])
      case None => None
      case Some(k) => Some(k + 1)
  }

  /**
   * The global replace, scanning left to right: a '(' that has a ')' after
   * it starts a match running to the first such ')', which is removed; a
   * '(' with no ')' after it, and every other character, is kept.
   */
  function StripParenGroups(s: string): (r: string)
    ensures |r| <= |s|
    decreases |s|
  {
    if s == [] then []
    else if s[0] == '(' then
      match FirstClose(s[1..])
      case Some(k) => StripParenGroups(s[k + 2..])
      case None => [s[0]] + StripParenGroups(s[1..])
    else [s[0]] + StripParenGroups(s[1..])
  }

  /** Every character of the result comes from the input, and nothing the pattern matches is left. */
  lemma {:induction false} StripParenGroupsMeaning(s: string)
    ensures forall c :: c in StripParenGroups(s) ==> c in s
    ensures NoGroup(StripParenGroups(s))
    ensures (forall i :: 0 <= i < |s| ==> s[i] != ')') ==> StripParenGroups(s) == s
    decreases |s|
  {
    if s != [] {
      var r := StripParenGroups(s);
      if s[0] == '(' && FirstClose(s[1..]).Some? {
        var k := FirstClose(s[1..]).value;
        StripParenGroupsMeaning(s[k + 2..]);
        assert s[1..][k] == s[k + 1];
      } else {
        StripParenGroupsMeaning(s[1..]);
        var tail := StripParenGroups(s[1..]);
        assert r == [s[0]] + tail;
        if s[0] == '(' {
          // No ')' after this '(' in s, hence none in the tail of the result.
          forall j | 0 < j < |r| ensures r[j] != ')' {
            assert r[j] in tail;
            assert r[j] in s[1..];
          }
        }
        if forall i :: 0 <= i < |s| ==> s[i] != ')' {
          assert forall i :: 0 <= i < |s[1..]| ==> s[1..][i] != ')';
          assert s == [s[0]] + s[1..];
        }
      }
    }
  }

  /** A string with nothing to match is left as it is, so applying the replace twice is applying it once. */
  lemma {:induction false} StripParenGroupsFixed(s: string)
    requires NoGroup(s)
    ensures StripParenGroups(s) == s
    decreases |s|
  {
    if s != [] {
      assert NoGroup(s[1..]) by {
        forall i, j | 0 <= i < j < |s[1..]| && s[1..][i] == '(' ensures s[1..][j] != ')' {
          assert s[i + 1] == '(';
        }
      }
      StripParenGroupsFixed(s[1..]);
      if s[0] == '(' {
        assert FirstClose(s[1..]).None? by {
          forall j | 0 <= j < |s[1..]| ensures s[1..][j] != ')' {
            assert s[j + 1] == s[1..][j];
          }
        }
      }
      assert s == [s[0]] + s[1..];
    }
  }

  lemma StripParenGroupsIdempotent(s: string)
    ensures StripParenGroups(StripParenGroups(s)) == StripParenGroups(s)
  {
    StripParenGroupsMeaning(s);
    StripParenGroupsFixed(StripParenGroups(s));
  }

  /** A group at the front is removed with its parentheses. */
  lemma StripParenGroupsDropsFront(m: string, b: string)
    requires ')' !in m
    ensures StripParenGroups("(" + m + ")" + b) == StripParenGroups(b)
  {
    var s := "(" + m + ")" + b;
    var t := s[1..];
    assert t == m + ")" + b;
    var k := FirstClose(t);
    assert t[|m|] == ')';
    assert k.Some? && k.value <= |m|;
    assert s[|m| + 2..] == b;
  }

  /** Text in which nothing opens a group is kept as it is, whatever follows it. */
  lemma {:induction false} StripParenGroupsKeepsPrefix(a: string, rest: string)
    requires '(' !in a
    ensures StripParenGroups(a + rest) == a + StripParenGroups(rest)
    decreases |a|
  {
    if a == [] {
      assert a + rest == rest;
    } else {
      var s := a + rest;
      assert s[0] == a[0] && s[1..] == a[1..] + rest;
      StripParenGroupsKeepsPrefix(a[1..], rest);
      assert a == [a[0]] + a[1..];
    }
  }

  /**
   * A group, its parentheses included, is removed as a whole, and what
   * precedes it is kept as it is when nothing there opens a group. With
   * StripParenGroupsFixed this fixes the result for every input.
   */
  lemma StripParenGroupsDropsGroup(a: string, m: string, b: string)
    requires '(' !in a && ')' !in m
    ensures StripParenGroups(a + "(" + m + ")" + b) == a + StripParenGroups(b)
  {
    var group := "(" + m + ")" + b;
    assert a + "(" + m + ")" + b == a + group;
    StripParenGroupsKeepsPrefix(a, group);
    StripParenGroupsDropsFront(m, b);
  }

  // ---------------------------------------------------------------------
  // trim
  // ---------------------------------------------------------------------

  /** The characters `trim` removes: ECMAScript WhiteSpace and LineTerminator. */
  predicate IsJsSpace(c: char)
  {
    // TAB, VT, FF, SP, NBSP, ZWNBSP
    c == '\t' || c == '\U{000B}' || c == '\U{000C}' || c == ' ' || c == '\U{00A0}' || c == '\U{FEFF}' ||
    // LF, CR, LS, PS
    c == '\n' || c == '\r' || c == '\U{2028}' || c == '\U{2029}' ||
    // the other space separators
    c == '\U{1680}' || ('\U{2000}' <= c <= '\U{200A}') || c == '\U{202F}' || c == '\U{205F}' || c == '\U{3000}'
  }

  /** The number of leading space characters. */
  function LeadingSpace(s: string): (n: nat)
    ensures n <= |s|
    ensures forall i :: 0 <= i < n ==> IsJsSpace(s[i])
    ensures n < |s| ==> !IsJsSpace(s[n])
  {
    if s == [] || !IsJsSpace(s[0]) then 0 else 1 + LeadingSpace(s[1..])
  }

  /** The number of trailing space characters. */
  function TrailingSpace(s: string): (n: nat)
    ensures n <= |s|
    ensures forall i :: |s| - n <= i < |s| ==> IsJsSpace(s[i])
    ensures n < |s| ==> !IsJsSpace(s[|s| - n - 1])
  {
    if s == [] || !IsJsSpace(s[|s| - 1]) then 0 else 1 + TrailingSpace(s[..|s| - 1])
  }

  /** `s.trim()`. */
  function Trim(s: string): string
  {
    var start := LeadingSpace(s);
    var rest := s[start..];
    rest[..|rest| - TrailingSpace(rest)]
  }

  /**
   * Trimming keeps one contiguous stretch of s: all that precedes and
   * follows it is space, and it neither starts nor ends with space.
   */
  lemma TrimMeaning(s: string)
    ensures var t := Trim(s);
      exists i, j :: 0 <= i <= j <= |s| && t == s[i..j] &&
        (forall k :: 0 <= k < i ==> IsJsSpace(s[k])) &&
        (forall k :: j <= k < |s| ==> IsJsSpace(s[k]))
    ensures var t := Trim(s); t == [] || (!IsJsSpace(t[0]) && !IsJsSpace(t[|t| - 1]))
  {
    var start := LeadingSpace(s);
    var rest := s[start..];
    var n := TrailingSpace(rest);
    var t := Trim(s);
    assert t == s[start..|s| - n];
    forall k | |s| - n <= k < |s| ensures IsJsSpace(s[k]) {
      assert s[k] == rest[k - start];
    }
    if t != [] {
      assert t[0] == s[start];
      assert t[|t| - 1] == rest[|rest| - n - 1];
    }
  }

  // ---------------------------------------------------------------------
  // split(sep).pop()
  // ---------------------------------------------------------------------

  /** The last piece of `s.split(sep)`: the text after the last sep, or all of s without one. */
  function AfterLast(s: string, sep: char): (r: string)
    ensures |r| <= |s| && r == s[|s| - |r|..]
    ensures sep !in r
    ensures |r| < |s| ==> s[|s| - |r| - 1] == sep
  {
    if s == [] || s[|s| - 1] == sep then []
    else AfterLast(s[..|s| - 1], sep) + [s[|s| - 1]]
  }
}
