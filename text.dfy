/**
 * String operations used by the scripts and the front end: ordinal string comparison
 * (Python `<` on `str`, JavaScript `<` on strings, as used for ISO dates and labels),
 * `str.strip` / `String.prototype.trim`, splitting on a separator, ASCII lower-casing,
 * single-character replacement and substring search.
 */
module Text {
  import Sequences

  /** Ordinal (code-unit by code-unit) lexicographic order. */
  predicate StrLt(a: string, b: string)
    decreases |a|
  {
    if |a| == 0 then |b| > 0
    else if |b| == 0 then false
    else if a[0] != b[0] then a[0] < b[0]
    else StrLt(a[1..], b[1..])
  }

  predicate StrLe(a: string, b: string) {
    a == b || StrLt(a, b)
  }

  lemma {:induction false} StrLtIrreflexive(a: string)
    ensures !StrLt(a, a)
    decreases |a|
  {
    if |a| > 0 {
      StrLtIrreflexive(a[1..]);
    }
  }

  lemma {:induction false} StrLtTransitive(a: string, b: string, c: string)
    requires StrLt(a, b) && StrLt(b, c)
    ensures StrLt(a, c)
    decreases |a|
  {
    if |a| > 0 && a[0] == b[0] && b[0] == c[0] {
      StrLtTransitive(a[1..], b[1..], c[1..]);
    }
  }

  /** Any two distinct strings are ordered one way or the other. */
  lemma {:induction false} StrLtTotal(a: string, b: string)
    ensures a == b || StrLt(a, b) || StrLt(b, a)
    decreases |a|
  {
    if |a| > 0 && |b| > 0 && a[0] == b[0] {
      StrLtTotal(a[1..], b[1..]);
      if a[1..] == b[1..] {
        assert a == [a[0]] + a[1..] && b == [b[0]] + b[1..];
      }
    }
  }

  lemma StrLtAsymmetric(a: string, b: string)
    requires StrLt(a, b)
    ensures !StrLt(b, a)
  {
    if StrLt(b, a) {
      StrLtTransitive(a, b, a);
      StrLtIrreflexive(a);
    }
  }

  /** Characters removed by Python's `str.strip()` with no argument (Unicode White_Space plus the separators 0x1C-0x1F). */
  predicate IsPyWhitespace(c: char) {
    var n := c as int;
    (0x09 <= n <= 0x0D) || (0x1C <= n <= 0x20) || n == 0x85 || n == 0xA0 || n == 0x1680
    || (0x2000 <= n <= 0x200A) || n == 0x2028 || n == 0x2029 || n == 0x202F || n == 0x205F
    || n == 0x3000
  }

  /** Characters removed by JavaScript's `String.prototype.trim` (WhiteSpace and LineTerminator). */
  predicate IsJsWhitespace(c: char) {
    var n := c as int;
    (0x09 <= n <= 0x0D) || n == 0x20 || n == 0xA0 || n == 0x1680
    || (0x2000 <= n <= 0x200A) || n == 0x2028 || n == 0x2029 || n == 0x202F || n == 0x205F
    || n == 0x3000 || n == 0xFEFF
  }

  function TrimStart(s: string, ws: char -> bool): (r: string)
    ensures |r| <= |s| && r == s[|s| - |r|..]
    decreases |s|
  {
    if s != [] && ws(s[0]) then TrimStart(s[1..], ws) else s
  }

  /** TrimStart cuts whitespace only, and up to the first other character. */
  lemma {:induction false} TrimStartCuts(s: string, ws: char -> bool)
    ensures TrimStart(s, ws) != [] ==> !ws(TrimStart(s, ws)[0])
    ensures forall i :: 0 <= i < |s| - |TrimStart(s, ws)| ==> ws(s[i])
    decreases |s|
  {
    if s != [] && ws(s[0]) {
      TrimStartCuts(s[1..], ws);
      forall i | 1 <= i < |s| - |TrimStart(s, ws)| ensures ws(s[i]) {
        assert s[i] == s[1..][i - 1];
      }
    }
  }

  function TrimEnd(s: string, ws: char -> bool): (r: string)
    ensures |r| <= |s| && r == s[..|r|]
    decreases |s|
  {
    if s != [] && ws(s[|s| - 1]) then TrimEnd(s[..|s| - 1], ws) else s
  }

  /** TrimEnd cuts whitespace only, and back to the last other character. */
  lemma {:induction false} TrimEndCuts(s: string, ws: char -> bool)
    ensures TrimEnd(s, ws) != [] ==> !ws(TrimEnd(s, ws)[|TrimEnd(s, ws)| - 1])
    ensures forall i :: |TrimEnd(s, ws)| <= i < |s| ==> ws(s[i])
    decreases |s|
  {
    if s != [] && ws(s[|s| - 1]) {
      TrimEndCuts(s[..|s| - 1], ws);
    }
  }

  /** Both ends stripped of the characters `ws` accepts. */
  function Trim(s: string, ws: char -> bool): string {
    TrimEnd(TrimStart(s, ws), ws)
  }

  /** Trim gives the longest infix of `s` that neither starts nor ends with whitespace: what is cut off is all whitespace. */
  lemma TrimShape(s: string, ws: char -> bool)
    ensures 0 <= TrimmedStart(s, ws) <= |s| - |Trim(s, ws)|
    ensures Trim(s, ws) == s[TrimmedStart(s, ws)..TrimmedStart(s, ws) + |Trim(s, ws)|]
    ensures Trim(s, ws) != [] ==> !ws(Trim(s, ws)[0]) && !ws(Trim(s, ws)[|Trim(s, ws)| - 1])
  {
    var t := TrimStart(s, ws);
    var r := TrimEnd(t, ws);
    TrimStartCuts(s, ws);
    TrimEndCuts(t, ws);
    assert Trim(s, ws) == r;
    var k := |s| - |t|;
    assert t == s[k..];
    assert r == t[..|r|];
    if r != [] {
      assert r[0] == t[0];
    }
  }

  /** Everything Trim cuts off is whitespace. */
  lemma TrimCutsWhitespace(s: string, ws: char -> bool)
    ensures forall i :: 0 <= i < TrimmedStart(s, ws) ==> ws(s[i])
    ensures forall i :: TrimmedStart(s, ws) + |Trim(s, ws)| <= i < |s| ==> ws(s[i])
  {
    var t := TrimStart(s, ws);
    var r := TrimEnd(t, ws);
    TrimStartCuts(s, ws);
    TrimEndCuts(t, ws);
    assert Trim(s, ws) == r;
    var k := |s| - |t|;
    assert t == s[k..];
    forall i | k + |r| <= i < |s| ensures ws(s[i]) {
      assert s[i] == t[i - k];
    }
  }

  /** How many characters Trim removes from the front. */
  function TrimmedStart(s: string, ws: char -> bool): nat
  {
    |s| - |TrimStart(s, ws)|
  }

  /** Trimming twice is trimming once. */
  lemma TrimIdempotent(s: string, ws: char -> bool)
    ensures Trim(Trim(s, ws), ws) == Trim(s, ws)
  {
    var r := Trim(s, ws);
    TrimShape(s, ws);
    if r != [] {
      assert TrimStart(r, ws) == r;
      assert TrimEnd(r, ws) == r;
    }
  }

  /** A trimmed string with no whitespace at all is unchanged. */
  lemma TrimNoWhitespace(s: string, ws: char -> bool)
    requires forall i :: 0 <= i < |s| ==> !ws(s[i])
    ensures Trim(s, ws) == s
  {
  }

  /** Python `str.strip()`. */
  function PyStrip(s: string): string { Trim(s, IsPyWhitespace) }

  /** JavaScript `String.prototype.trim()`. */
  function JsTrim(s: string): string { Trim(s, IsJsWhitespace) }

  /** The parts of `s` between occurrences of `sep` (Python `str.split(sep)`, JavaScript `split(sep)`). */
  function Split(s: string, sep: char): (parts: seq<string>)
    ensures |parts| >= 1
    ensures forall p :: p in parts ==> sep !in p
    decreases |s|
  {
    if s == [] then [""]
    else
      var rest := Split(s[..|s| - 1], sep);
      if s[|s| - 1] == sep then rest + [""]
      else rest[..|rest| - 1] + [rest[|rest| - 1] + [s[|s| - 1]]]
  }

  /** The parts joined back with `sep`. */
  function Join(parts: seq<string>, sep: char): string
    decreases |parts|
  {
    if parts == [] then ""
    else if |parts| == 1 then parts[0]
    else Join(parts[..|parts| - 1], sep) + [sep] + parts[|parts| - 1]
  }

  lemma JoinAppendLast(parts: seq<string>, sep: char, c: char)
    requires |parts| >= 1
    ensures Join(parts[..|parts| - 1] + [parts[|parts| - 1] + [c]], sep) == Join(parts, sep) + [c]
  {
    var init := parts[..|parts| - 1];
    assert (init + [parts[|parts| - 1] + [c]])[..|init|] == init;
  }

  /** Splitting loses nothing: joining the parts with the separator gives back the string. */
  lemma {:induction false} SplitJoin(s: string, sep: char)
    ensures Join(Split(s, sep), sep) == s
    decreases |s|
  {
    if s != [] {
      var init := s[..|s| - 1];
      var rest := Split(init, sep);
      SplitJoin(init, sep);
      if s[|s| - 1] == sep {
        assert (rest + [""])[..|rest|] == rest;
      } else {
        JoinAppendLast(rest, sep, s[|s| - 1]);
      }
      assert s == init + [s[|s| - 1]];
    }
  }

  /** A string without the separator splits into itself alone. */
  lemma {:induction false} SplitNoSeparator(s: string, sep: char)
    requires sep !in s
    ensures Split(s, sep) == [s]
    decreases |s|
  {
    if s != [] {
      SplitNoSeparator(s[..|s| - 1], sep);
      assert s == s[..|s| - 1] + [s[|s| - 1]];
    }
  }

  /** Text after the last separator becomes the last part. */
  lemma {:induction false} SplitAfterSeparator(s: string, sep: char, t: string)
    requires sep !in t
    ensures Split(s + [sep] + t, sep) == Split(s, sep) + [t]
    decreases |t|
  {
    if t == [] {
      assert (s + [sep] + t)[..|s + [sep] + t| - 1] == s;
    } else {
      var t' := t[..|t| - 1];
      SplitAfterSeparator(s, sep, t');
      assert (s + [sep] + t)[..|s + [sep] + t| - 1] == s + [sep] + t';
      assert t' + [t[|t| - 1]] == t;
    }
  }

  /** Splitting undoes joining parts that do not contain the separator. */
  lemma {:induction false} JoinSplit(parts: seq<string>, sep: char)
    requires |parts| >= 1 && forall p :: p in parts ==> sep !in p
    ensures Split(Join(parts, sep), sep) == parts
    decreases |parts|
  {
    if |parts| == 1 {
      SplitNoSeparator(parts[0], sep);
    } else {
      var init := parts[..|parts| - 1];
      JoinSplit(init, sep);
      SplitAfterSeparator(Join(init, sep), sep, parts[|parts| - 1]);
    }
  }

  /** Joining keeps every part's characters, so a non-empty first part makes non-empty text. */
  lemma {:induction false} JoinLength(parts: seq<string>, sep: char)
    requires parts != []
    ensures |Join(parts, sep)| >= |parts[0]|
    decreases |parts|
  {
    if |parts| > 1 {
      JoinLength(parts[..|parts| - 1], sep);
    }
  }

  /** ASCII lower-casing (`str.lower()` / `toLowerCase()` restricted to A-Z). */
  function LowerChar(c: char): (d: char)
    ensures 'A' <= c <= 'Z' ==> 'a' <= d <= 'z'
    ensures !('A' <= c <= 'Z') ==> d == c
  {
    if 'A' <= c <= 'Z' then (c as int - 'A' as int + 'a' as int) as char else c
  }

  function Lower(s: string): (r: string)
    ensures |r| == |s| && forall i :: 0 <= i < |s| ==> r[i] == LowerChar(s[i])
  {
    seq(|s|, i requires 0 <= i < |s| => LowerChar(s[i]))
  }

  /** Lower-casing twice is lower-casing once. */
  lemma LowerIdempotent(s: string)
    ensures Lower(Lower(s)) == Lower(s)
  {
  }

  /** A string without upper-case ASCII letters is its own lower case. */
  lemma LowerOfLower(s: string)
    requires forall c :: c in s ==> !('A' <= c <= 'Z')
    ensures Lower(s) == s
  {
    forall i | 0 <= i < |s| ensures Lower(s)[i] == s[i] {
      assert s[i] in s;
    }
  }

  /** Lower-casing leaves no upper-case ASCII letter. */
  lemma LowerNoUpper(s: string)
    ensures forall c :: c in Lower(s) ==> !('A' <= c <= 'Z')
  {
    forall c | c in Lower(s) ensures !('A' <= c <= 'Z') {
      var i :| 0 <= i < |s| && Lower(s)[i] == c;
    }
  }

  /** A string that neither starts nor ends with whitespace is already trimmed. */
  lemma TrimmedEnds(s: string, ws: char -> bool)
    requires s != [] && !ws(s[0]) && !ws(s[|s| - 1])
    ensures Trim(s, ws) == s
  {
  }

  /** `s.replace(c, t)` for a one-character pattern: every `c` becomes `t`. */
  function Replace(s: string, c: char, t: string): string
    decreases |s|
  {
    if s == [] then ""
    else (if s[0] == c then t else [s[0]]) + Replace(s[1..], c, t)
  }

  /** Which characters a replacement can leave: `c` goes, `t`'s characters may come, everything else stays. */
  lemma {:induction false} ReplaceChars(s: string, c: char, t: string)
    ensures c !in s ==> Replace(s, c, t) == s
    ensures c !in t ==> c !in Replace(s, c, t)
    ensures forall d :: d in Replace(s, c, t) ==> d in s || d in t
    ensures forall d :: d !in t && d != c ==> (d in Replace(s, c, t) <==> d in s)
    decreases |s|
  {
    if s != [] {
      ReplaceChars(s[1..], c, t);
      assert s == [s[0]] + s[1..];
    }
  }

  /** A property every kept character and every inserted character has survives the replacement. */
  lemma ReplaceKeeps(s: string, c: char, t: string, p: char -> bool)
    requires forall d :: d in s && d != c ==> p(d)
    requires forall d :: d in t ==> p(d)
    ensures forall d :: d in Replace(s, c, t) ==> p(d)
  {
    ReplaceChars(s, c, t);
  }

  /** `t` occurs in `s` starting at index `k`. */
  predicate OccursAt(s: string, t: string, k: int) {
    0 <= k <= |s| - |t| && s[k..k + |t|] == t
  }

  /** `t` occurs in `s` as a contiguous substring (`includes`). */
  predicate Contains(s: string, t: string) {
    exists k :: 0 <= k <= |s| && OccursAt(s, t, k)
  }

  /** A substring of a substring is a substring. */
  lemma ContainsTransitive(s: string, t: string, u: string)
    requires Contains(s, t) && Contains(t, u)
    ensures Contains(s, u)
  {
    var k :| 0 <= k <= |s| && OccursAt(s, t, k);
    var m :| 0 <= m <= |t| && OccursAt(t, u, m);
    assert 0 <= k <= |s| - |t| && s[k..k + |t|] == t;
    assert 0 <= m <= |t| - |u| && t[m..m + |u|] == u;
    forall i | 0 <= i < |u| ensures s[k + m + i] == u[i] {
      assert u[i] == t[m + i] == s[k + m + i];
    }
    assert OccursAt(s, u, k + m);
  }

  lemma ContainsEmpty(s: string)
    ensures Contains(s, "")
  {
    assert OccursAt(s, "", 0);
  }

  predicate NonBlank(s: string) {
    s != ""
  }

  /** The items of `s` between occurrences of `sep`, each stripped of `ws`, the blank ones dropped. */
  function SplitTrimmed(s: string, sep: char, ws: char -> bool): seq<string> {
    Sequences.Filter(Sequences.Map(Split(s, sep), TrimWith(ws)), NonBlank)
  }

  function TrimWith(ws: char -> bool): string -> string {
    t => Trim(t, ws)
  }

  /** Every item kept is non-blank, already stripped, free of `sep`, and the stripped form of one of the split parts. */
  lemma SplitTrimmedItems(s: string, sep: char, ws: char -> bool)
    ensures forall t :: t in SplitTrimmed(s, sep, ws) ==>
      && t != "" && Trim(t, ws) == t && sep !in t
      && exists part :: part in Split(s, sep) && t == Trim(part, ws)
  {
    var parts := Split(s, sep);
    var trimmed := Sequences.Map(parts, TrimWith(ws));
    forall t | t in SplitTrimmed(s, sep, ws)
      ensures t != "" && Trim(t, ws) == t && sep !in t && exists part :: part in parts && t == Trim(part, ws)
    {
      assert t in trimmed && NonBlank(t);
      var i :| 0 <= i < |trimmed| && trimmed[i] == t;
      assert parts[i] in parts && t == Trim(parts[i], ws);
      TrimmedPart(parts[i], sep, ws);
    }
  }

  /** A stripped part without `sep` is still without `sep`, and stripping it again changes nothing. */
  lemma TrimmedPart(part: string, sep: char, ws: char -> bool)
    requires sep !in part
    ensures sep !in Trim(part, ws) && Trim(Trim(part, ws), ws) == Trim(part, ws)
  {
    var t := Trim(part, ws);
    var a := TrimmedStart(part, ws);
    TrimShape(part, ws);
    forall i | 0 <= i < |t| ensures t[i] != sep {
      assert t[i] == part[a + i];
      assert part[a + i] in part;
    }
    TrimIdempotent(part, ws);
  }

  /** Every part that is not blank once stripped is kept, and nothing is kept exactly when every part is blank once stripped. */
  lemma SplitTrimmedComplete(s: string, sep: char, ws: char -> bool)
    ensures forall part :: part in Split(s, sep) && Trim(part, ws) != "" ==> Trim(part, ws) in SplitTrimmed(s, sep, ws)
    ensures SplitTrimmed(s, sep, ws) == [] <==> forall part :: part in Split(s, sep) ==> Trim(part, ws) == ""
  {
    var parts := Split(s, sep);
    Sequences.FilterMapKeeps(parts, TrimWith(ws), NonBlank);
    assert forall part :: TrimWith(ws)(part) == Trim(part, ws);
  }

  /** An empty string has one part, which is blank. */
  lemma SplitTrimmedEmpty(sep: char, ws: char -> bool)
    ensures SplitTrimmed("", sep, ws) == []
  {
    SplitTrimmedComplete("", sep, ws);
    assert Split("", sep) == [""];
  }
}
