/**
 * The pure string, path and date helpers of the extension (src/utils.ts):
 * the repository-slug normaliser, the template-name prefix, the competition
 * season string, the path predicates and the "time since" bucketing.
 */
module Utils {

  // ---------------------------------------------------------------------------
  // Characters
  // ---------------------------------------------------------------------------

  predicate IsLower(c: char) { 'a' <= c <= 'z' }
  predicate IsUpper(c: char) { 'A' <= c <= 'Z' }
  predicate IsDigit(c: char) { '0' <= c <= '9' }

  /** The characters the first stage of the slug chain keeps: ASCII letters, digits and the dash. */
  predicate IsAllowed(c: char) { IsLower(c) || IsUpper(c) || IsDigit(c) || c == '-' }

  /** The characters a finished slug may contain: lower-case ASCII letters, digits and the dash. */
  predicate IsSlugChar(c: char) { IsLower(c) || IsDigit(c) || c == '-' }

  predicate AllAllowed(s: string) { forall i :: 0 <= i < |s| ==> IsAllowed(s[i]) }
  predicate AllSlugChars(s: string) { forall i :: 0 <= i < |s| ==> IsSlugChar(s[i]) }

  /** No two adjacent dashes. */
  predicate NoDoubleDash(s: string) {
    forall i, j :: 0 <= i < |s| && 0 <= j < |s| && j == i + 1 && s[i] == '-' ==> s[j] != '-'
  }

  /** No lower-case letter directly followed by an upper-case one. */
  predicate NoCamelBoundary(s: string) {
    forall i, j :: 0 <= i < |s| && 0 <= j < |s| && j == i + 1 && IsLower(s[i]) ==> !IsUpper(s[j])
  }

  /** ASCII lower-casing of one character. */
  function LowerChar(c: char): (r: char)
    ensures IsUpper(c) ==> IsLower(r) && r as int == c as int + 32
    ensures !IsUpper(c) ==> r == c
  {
    if IsUpper(c) then (c as int + 32) as char else c
  }

  /** ASCII lower-casing of a string (JavaScript's `toLowerCase` on ASCII text). */
  function ToLower(s: string): (r: string)
    ensures |r| == |s|
    ensures forall i :: 0 <= i < |s| ==> r[i] == LowerChar(s[i])
  {
    if s == [] then []
    else
      var t := ToLower(s[1..]);
      assert forall i :: 1 <= i < |s| ==> s[i] == s[1..][i - 1];
      [LowerChar(s[0])] + t
  }

  lemma ToLowerConcat(a: string, b: string)
    ensures ToLower(a + b) == ToLower(a) + ToLower(b)
  {
    var r, t := ToLower(a + b), ToLower(a) + ToLower(b);
    forall i | 0 <= i < |r|
      ensures r[i] == t[i]
    {
      if i < |a| {
        assert (a + b)[i] == a[i];
      } else {
        assert (a + b)[i] == b[i - |a|];
      }
    }
  }

  // ---------------------------------------------------------------------------
  // Repository slug (src/utils.ts:111-129)
  // ---------------------------------------------------------------------------

  /** The longest slug the slug chain produces. */
  const MaxSlugLength := 62

  /** The first stage: every character other than an ASCII letter, a digit or a dash becomes a dash. */
  function ReplaceDisallowed(s: string): (r: string)
    ensures |r| == |s| && AllAllowed(r)
    ensures forall i :: 0 <= i < |s| && IsAllowed(s[i]) ==> r[i] == s[i]
    ensures forall i :: 0 <= i < |s| && !IsAllowed(s[i]) ==> r[i] == '-'
  {
    if s == [] then []
    else
      var t := ReplaceDisallowed(s[1..]);
      assert forall i :: 1 <= i < |s| ==> s[i] == s[1..][i - 1];
      [if IsAllowed(s[0]) then s[0] else '-'] + t
  }

  /**
   * The second stage: a dash between a lower-case and an upper-case letter. A match cannot start at an
   * upper-case letter, so the global scan is exactly "a dash between every
   * lower-then-upper pair".
   */
  function SplitCamel(s: string): (r: string)
    ensures AllAllowed(s) ==> AllAllowed(r)
    ensures |s| > 0 ==> |r| > 0 && r[0] == s[0]
    ensures NoCamelBoundary(r)
    decreases |s|
  {
    if |s| < 2 then s
    else if IsLower(s[0]) && IsUpper(s[1]) then [s[0], '-'] + SplitCamel(s[1..])
    else [s[0]] + SplitCamel(s[1..])
  }

  /** The fourth stage: drops the dashes at the start. */
  function TrimLeadingDashes(s: string): (r: string)
    ensures |r| <= |s| && r == s[|s| - |r|..]
    ensures r == [] || r[0] != '-'
    ensures forall i :: 0 <= i < |s| - |r| ==> s[i] == '-'
    decreases |s|
  {
    if s != [] && s[0] == '-' then TrimLeadingDashes(s[1..]) else s
  }

  /** The fifth stage: drops the dashes at the end. */
  function TrimTrailingDashes(s: string): (r: string)
    ensures r <= s
    ensures r == [] || r[|r| - 1] != '-'
    ensures forall i :: |r| <= i < |s| ==> s[i] == '-'
    decreases |s|
  {
    if s != [] && s[|s| - 1] == '-' then TrimTrailingDashes(s[..|s| - 1]) else s
  }

  /** The third stage: every run of dashes becomes one dash. */
  function CollapseDashes(s: string): (r: string)
    ensures AllAllowed(s) ==> AllAllowed(r)
    ensures NoDoubleDash(r)
    ensures s != [] ==> r != [] && r[0] == s[0]
    decreases |s|
  {
    if s == [] then []
    else if s[0] == '-' then
      var rest := TrimLeadingDashes(s[1..]);
      SuffixKeepsCharsAndDashes(s[1..], |s| - 1 - |rest|);
      var t := CollapseDashes(rest);
      ConsKeepsCharsAndDashes('-', t);
      ['-'] + t
    else
      SuffixKeepsCharsAndDashes(s, 1);
      var t := CollapseDashes(s[1..]);
      ConsKeepsCharsAndDashes(s[0], t);
      [s[0]] + t
  }

  lemma ConsKeepsCharsAndDashes(c: char, t: string)
    ensures IsAllowed(c) && AllAllowed(t) ==> AllAllowed([c] + t)
    ensures NoDoubleDash(t) && (c == '-' && t != [] ==> t[0] != '-') ==> NoDoubleDash([c] + t)
  {
    assert forall i :: 1 <= i <= |t| ==> ([c] + t)[i] == t[i - 1];
  }

  lemma SuffixKeepsCharsAndDashes(s: string, k: nat)
    requires k <= |s|
    ensures AllAllowed(s) ==> AllAllowed(s[k..])
    ensures NoDoubleDash(s) ==> NoDoubleDash(s[k..])
  {
    assert forall i :: 0 <= i < |s[k..]| ==> s[k..][i] == s[k + i];
  }

  /** The slug chain up to, but not including, the final cut to 62 characters. */
  function UntruncatedSlug(name: string): string
  {
    ToLower(TrimTrailingDashes(TrimLeadingDashes(CollapseDashes(SplitCamel(ReplaceDisallowed(name))))))
  }

  /**
   * `getProjectSlugFromName`: only `a-z`, `0-9` and `-`, at most 62 characters,
   * no `--`, no leading dash, and a trailing dash only when the 62-character
   * cut fell right after one.
   */
  function ProjectSlugFromName(name: string): (r: string)
    ensures AllSlugChars(r)
    ensures |r| <= MaxSlugLength
    ensures NoDoubleDash(r)
    ensures r == [] || r[0] != '-'
  {
    var u := UntruncatedSlug(name);
    UntruncatedSlugIsClean(name);
    CutSlug(u)
  }

  /** The final stage: the first 62 characters of what the rest of the chain produced. */
  function CutSlug(u: string): (r: string)
    requires IsCleanSlug(u)
    ensures AllSlugChars(r) && |r| <= MaxSlugLength && NoDoubleDash(r)
    ensures r == [] || r[0] != '-'
    ensures r != [] && r[|r| - 1] == '-' ==> |u| > MaxSlugLength
    ensures r <= u && (|u| <= MaxSlugLength ==> r == u)
    ensures |u| > MaxSlugLength ==> r == u[..MaxSlugLength]
  {
    if |u| <= MaxSlugLength then u
    else
      PrefixKeepsSlugChars(u, MaxSlugLength);
      u[..MaxSlugLength]
  }

  lemma PrefixKeepsSlugChars(s: string, k: nat)
    requires k <= |s| && AllSlugChars(s) && NoDoubleDash(s)
    ensures AllSlugChars(s[..k]) && NoDoubleDash(s[..k])
  {
    assert forall i :: 0 <= i < k ==> s[..k][i] == s[i];
  }

  /** A string the slug chain leaves untouched (apart from the length cut). */
  predicate IsCleanSlug(s: string) {
    && AllSlugChars(s)
    && NoDoubleDash(s)
    && (s == [] || (s[0] != '-' && s[|s| - 1] != '-'))
  }

  lemma UntruncatedSlugIsClean(name: string)
    ensures IsCleanSlug(UntruncatedSlug(name))
  {
    var c := CollapseDashes(SplitCamel(ReplaceDisallowed(name)));
    TrimmedKeepsCharsAndDashes(c);
    LowerOfTrimmedIsClean(TrimTrailingDashes(TrimLeadingDashes(c)));
  }

  lemma TrimmedKeepsCharsAndDashes(c: string)
    requires AllAllowed(c) && NoDoubleDash(c)
    ensures var t := TrimTrailingDashes(TrimLeadingDashes(c));
            && AllAllowed(t) && NoDoubleDash(t)
            && (t == [] || (t[0] != '-' && t[|t| - 1] != '-'))
  {
    var l := TrimLeadingDashes(c);
    SuffixKeepsCharsAndDashes(c, |c| - |l|);
    TrimTrailingKeepsCharsAndDashes(l);
  }

  lemma TrimTrailingKeepsCharsAndDashes(l: string)
    requires AllAllowed(l) && NoDoubleDash(l) && (l == [] || l[0] != '-')
    ensures var t := TrimTrailingDashes(l);
            && AllAllowed(t) && NoDoubleDash(t)
            && (t == [] || (t[0] != '-' && t[|t| - 1] != '-'))
  {
    var t := TrimTrailingDashes(l);
    assert forall i :: 0 <= i < |t| ==> t[i] == l[i];
  }

  lemma LowerOfTrimmedIsClean(t: string)
    requires AllAllowed(t) && NoDoubleDash(t) && (t == [] || (t[0] != '-' && t[|t| - 1] != '-'))
    ensures IsCleanSlug(ToLower(t))
  {
    var u := ToLower(t);
    forall i | 0 <= i < |u|
      ensures IsSlugChar(u[i]) && (u[i] == '-' <==> t[i] == '-')
    {
    }
  }

  /** `ToLower` of a string without upper-case letters is the string itself. */
  lemma ToLowerOfLower(s: string)
    requires AllSlugChars(s)
    ensures ToLower(s) == s
  {
    assert forall i :: 0 <= i < |s| ==> ToLower(s)[i] == s[i];
  }

  /** The first replacement keeps a string of allowed characters as it is. */
  lemma {:induction false} ReplaceOfAllowed(s: string)
    requires AllAllowed(s)
    ensures ReplaceDisallowed(s) == s
    decreases |s|
  {
    if s != [] {
      SuffixKeepsCharsAndDashes(s, 1);
      ReplaceOfAllowed(s[1..]);
    }
  }

  lemma {:induction false} SplitCamelOfLower(s: string)
    requires AllSlugChars(s)
    ensures SplitCamel(s) == s
    decreases |s|
  {
    if |s| >= 2 {
      SuffixSlugChars(s, 1);
      SplitCamelOfLower(s[1..]);
    }
  }

  lemma SuffixSlugChars(s: string, k: nat)
    requires k <= |s| && AllSlugChars(s)
    ensures AllSlugChars(s[k..])
  {
    assert forall i :: 0 <= i < |s[k..]| ==> s[k..][i] == s[k + i];
  }

  lemma {:induction false} CollapseOfSingleDashes(s: string)
    requires NoDoubleDash(s)
    ensures CollapseDashes(s) == s
    decreases |s|
  {
    if s != [] {
      SuffixKeepsCharsAndDashes(s, 1);
      if s[0] == '-' {
        assert s[1..] == [] || s[1..][0] != '-';
        assert TrimLeadingDashes(s[1..]) == s[1..];
      }
      CollapseOfSingleDashes(s[1..]);
    }
  }

  /** A clean slug passes through the whole chain unchanged. */
  lemma CleanSlugIsFixedPoint(s: string)
    requires IsCleanSlug(s)
    ensures UntruncatedSlug(s) == s
  {
    forall i | 0 <= i < |s| ensures IsAllowed(s[i]) { }
    ReplaceOfAllowed(s);
    SplitCamelOfLower(s);
    CollapseOfSingleDashes(s);
    assert TrimLeadingDashes(s) == s;
    assert TrimTrailingDashes(s) == s;
    ToLowerOfLower(s);
  }

  /**
   * Normalising a slug again changes nothing, unless the 62-character cut left
   * a trailing dash (which the second pass then trims).
   */
  lemma SlugIdempotent(name: string)
    requires var r := ProjectSlugFromName(name); r == [] || r[|r| - 1] != '-'
    ensures ProjectSlugFromName(ProjectSlugFromName(name)) == ProjectSlugFromName(name)
  {
    var r := ProjectSlugFromName(name);
    CleanSlugIsFixedPoint(r);
  }

  /** The cut itself can leave a trailing dash: 61 letters, a dash, then more. */
  lemma TruncationCanEndInDash()
    ensures var name := seq(61, _ => 'a') + "-b";
            var r := ProjectSlugFromName(name);
            |r| == MaxSlugLength && r[|r| - 1] == '-'
  {
    var name := seq(61, _ => 'a') + "-b";
    assert IsCleanSlug(name) by {
      assert forall i :: 0 <= i < 61 ==> name[i] == 'a';
      assert name[61] == '-' && name[62] == 'b';
    }
    CleanSlugIsFixedPoint(name);
  }

  /** The text with its dashes removed. */
  function WithoutDashes(s: string): (r: string)
    ensures '-' !in r
    ensures |r| <= |s|
  {
    if s == [] then [] else (if s[0] == '-' then [] else [s[0]]) + WithoutDashes(s[1..])
  }

  /**
   * The camel-case split changes nothing but dashes: removing all dashes
   * from its result gives the same text as removing them from its input.
   */
  lemma {:induction false} SplitCamelInsertsOnlyDashes(s: string)
    ensures WithoutDashes(SplitCamel(s)) == WithoutDashes(s)
    decreases |s|
  {
    if |s| >= 2 {
      SplitCamelInsertsOnlyDashes(s[1..]);
      var t := SplitCamel(s[1..]);
      var p := if IsLower(s[0]) && IsUpper(s[1]) then [s[0], '-'] else [s[0]];
      assert SplitCamel(s) == p + t;
      WithoutDashesAppend(p, t);
      WithoutDashesAppend([s[0]], s[1..]);
      assert s == [s[0]] + s[1..];
      DashAddsNothing(s[0]);
    }
  }

  lemma {:induction false} WithoutDashesAppend(a: string, b: string)
    ensures WithoutDashes(a + b) == WithoutDashes(a) + WithoutDashes(b)
    decreases |a|
  {
    if a != [] {
      WithoutDashesAppend(a[1..], b);
      assert (a + b)[1..] == a[1..] + b;
    } else {
      assert a + b == b;
    }
  }

  lemma DashAddsNothing(c: char)
    ensures WithoutDashes([c, '-']) == WithoutDashes([c])
  {
    assert [c, '-'][1..] == ['-'];
    assert ['-'][1..] == [];
    assert [c][1..] == [];
  }

  /** Whether a lower-case letter ends `a` and an upper-case letter starts `b`. */
  predicate CamelJoin(a: string, b: string) {
    a != [] && b != [] && IsLower(a[|a| - 1]) && IsUpper(b[0])
  }

  /**
   * The camel-case split works piece by piece: splitting a joined text splits
   * each piece and puts one dash where they meet exactly when a lower-case
   * letter meets an upper-case one there. Since a text of fewer than two
   * characters is left alone, this fixes the stage completely: every input
   * character is kept, in order, and a dash is added at each camel boundary
   * and nowhere else.
   */
  lemma {:induction false} SplitCamelAppend(a: string, b: string)
    ensures |a| < 2 ==> SplitCamel(a) == a
    ensures SplitCamel(a + b) == SplitCamel(a) + (if CamelJoin(a, b) then "-" else "") + SplitCamel(b)
    decreases |a|
  {
    var m := if CamelJoin(a, b) then "-" else "";
    if a == [] {
      assert a + b == b;
    } else if |a| == 1 {
      if b == [] {
        assert a + b == a;
      } else {
        var ab := a + b;
        assert ab[0] == a[0] && ab[1] == b[0] && ab[1..] == b;
        SplitCamelStep(ab);
        assert CamelHead(ab) == a + m;
      }
    } else {
      var ab := a + b;
      assert ab[0] == a[0] && ab[1] == a[1] && ab[1..] == a[1..] + b;
      SplitCamelStep(ab);
      SplitCamelStep(a);
      assert CamelHead(ab) == CamelHead(a);
      SplitCamelAppend(a[1..], b);
      assert CamelJoin(a[1..], b) == CamelJoin(a, b);
      AppendAssoc4(CamelHead(a), SplitCamel(a[1..]), m, SplitCamel(b));
    }
  }

  /** What the first character of a text of two or more contributes to the split. */
  function CamelHead(s: string): string
    requires |s| >= 2
  {
    if IsLower(s[0]) && IsUpper(s[1]) then [s[0], '-'] else [s[0]]
  }

  lemma SplitCamelStep(s: string)
    requires |s| >= 2
    ensures SplitCamel(s) == CamelHead(s) + SplitCamel(s[1..])
  {
  }

  lemma AppendAssoc4(p: string, x: string, m: string, y: string)
    ensures p + (x + m + y) == (p + x) + m + y
  {
  }

  /**
   * An independent account of the third stage: a dash is dropped exactly
   * when another dash follows it, so each run of dashes keeps one.
   */
  function DropRepeatedDashes(s: string): string
    decreases |s|
  {
    if |s| < 2 then s
    else if s[0] == '-' && s[1] == '-' then DropRepeatedDashes(s[1..])
    else [s[0]] + DropRepeatedDashes(s[1..])
  }

  /** Collapsing the runs of dashes is dropping every dash that another dash follows. */
  lemma {:induction false} CollapseDropsRepeatedDashes(s: string)
    ensures CollapseDashes(s) == DropRepeatedDashes(s)
    decreases |s|
  {
    if s != [] {
      if s[0] == '-' {
        var rest := TrimLeadingDashes(s[1..]);
        CollapseDropsRepeatedDashes(rest);
        DropFromDash(s);
      } else {
        CollapseDropsRepeatedDashes(s[1..]);
      }
    }
  }

  lemma {:induction false} DropFromDash(s: string)
    requires s != [] && s[0] == '-'
    ensures DropRepeatedDashes(s) == ['-'] + DropRepeatedDashes(TrimLeadingDashes(s[1..]))
    decreases |s|
  {
    if |s| >= 2 && s[1] == '-' {
      DropFromDash(s[1..]);
      assert s[1..][1..] == s[2..];
    }
  }

  /** A run of dashes has nothing else in it. */
  lemma {:induction false} WithoutDashesOfDashes(s: string)
    requires forall i :: 0 <= i < |s| ==> s[i] == '-'
    ensures WithoutDashes(s) == []
    decreases |s|
  {
    if s != [] {
      WithoutDashesOfDashes(s[1..]);
    }
  }

  /** Dropping repeated dashes keeps every other character, in order. */
  lemma {:induction false} DropKeepsNonDashes(s: string)
    ensures WithoutDashes(DropRepeatedDashes(s)) == WithoutDashes(s)
    decreases |s|
  {
    if |s| >= 2 {
      DropKeepsNonDashes(s[1..]);
      var t := DropRepeatedDashes(s[1..]);
      if !(s[0] == '-' && s[1] == '-') {
        assert ([s[0]] + t)[1..] == t;
      }
    }
  }

  /** The third stage keeps every character other than a dash, in order. */
  lemma CollapseKeepsNonDashes(s: string)
    ensures WithoutDashes(CollapseDashes(s)) == WithoutDashes(s)
  {
    CollapseDropsRepeatedDashes(s);
    DropKeepsNonDashes(s);
  }

  /** Dashes put in front of or behind a text add nothing to its non-dash content. */
  lemma DashesAroundAddNothing(p: string, t: string)
    requires forall i :: 0 <= i < |p| ==> p[i] == '-'
    ensures WithoutDashes(p + t) == WithoutDashes(t)
    ensures WithoutDashes(t + p) == WithoutDashes(t)
  {
    WithoutDashesOfDashes(p);
    WithoutDashesAppend(p, t);
    WithoutDashesAppend(t, p);
  }

  /** The fourth stage drops only dashes. */
  lemma TrimLeadingKeepsNonDashes(s: string)
    ensures WithoutDashes(TrimLeadingDashes(s)) == WithoutDashes(s)
  {
    var l := TrimLeadingDashes(s);
    var p := s[..|s| - |l|];
    assert s == p + l;
    DashesAroundAddNothing(p, l);
  }

  /** The fifth stage drops only dashes. */
  lemma TrimTrailingKeepsNonDashes(s: string)
    ensures WithoutDashes(TrimTrailingDashes(s)) == WithoutDashes(s)
  {
    var t := TrimTrailingDashes(s);
    var p := s[|t|..];
    assert s == t + p;
    DashesAroundAddNothing(p, t);
  }

  /** A prefix of a text has a prefix of its non-dash content. */
  lemma PrefixKeepsNonDashPrefix(r: string, u: string)
    requires r <= u
    ensures WithoutDashes(r) <= WithoutDashes(u)
  {
    assert u == r + u[|r|..];
    WithoutDashesAppend(r, u[|r|..]);
  }

  /** Lower-casing and removing dashes can be done in either order. */
  lemma {:induction false} ToLowerKeepsNonDashes(s: string)
    ensures WithoutDashes(ToLower(s)) == ToLower(WithoutDashes(s))
    decreases |s|
  {
    if s != [] {
      ToLowerKeepsNonDashes(s[1..]);
      assert ToLower(s)[1..] == ToLower(s[1..]);
      if s[0] != '-' {
        ToLowerConcat([s[0]], WithoutDashes(s[1..]));
      }
    }
  }

  predicate IsAlphanumeric(c: char) { IsLower(c) || IsUpper(c) || IsDigit(c) }

  /** The ASCII letters and digits of a string, in order. */
  function Alphanumerics(s: string): (r: string)
    ensures |r| <= |s|
    ensures forall i :: 0 <= i < |r| ==> IsAlphanumeric(r[i])
  {
    if s == [] then []
    else (if IsAlphanumeric(s[0]) then [s[0]] else []) + Alphanumerics(s[1..])
  }

  /** After the first stage, the characters other than dashes are the letters and digits of the name. */
  lemma {:induction false} ReplaceKeepsAlphanumerics(s: string)
    ensures WithoutDashes(ReplaceDisallowed(s)) == Alphanumerics(s)
    decreases |s|
  {
    if s != [] {
      ReplaceKeepsAlphanumerics(s[1..]);
      var c := if IsAllowed(s[0]) then s[0] else '-';
      assert ReplaceDisallowed(s) == [c] + ReplaceDisallowed(s[1..]);
      assert ([c] + ReplaceDisallowed(s[1..]))[1..] == ReplaceDisallowed(s[1..]);
    }
  }

  /**
   * Before the cut, the slug keeps every letter and digit of the name, in
   * order and lower-cased, and nothing else but dashes.
   */
  lemma SlugKeepsAlphanumerics(name: string)
    ensures WithoutDashes(UntruncatedSlug(name)) == ToLower(Alphanumerics(name))
  {
    var a := ReplaceDisallowed(name);
    var b := SplitCamel(a);
    var c := CollapseDashes(b);
    var d := TrimLeadingDashes(c);
    var e := TrimTrailingDashes(d);
    ReplaceKeepsAlphanumerics(name);
    SplitCamelInsertsOnlyDashes(a);
    CollapseKeepsNonDashes(b);
    TrimLeadingKeepsNonDashes(c);
    TrimTrailingKeepsNonDashes(d);
    ToLowerKeepsNonDashes(e);
  }

  /**
   * The slug's letters and digits are the first ones of the name's, lower-cased,
   * and all of them when the cut removed nothing.
   */
  lemma CutSlugKeepsAlphanumerics(name: string)
    ensures var r := ProjectSlugFromName(name);
            && WithoutDashes(r) <= ToLower(Alphanumerics(name))
            && (|UntruncatedSlug(name)| <= MaxSlugLength ==> WithoutDashes(r) == ToLower(Alphanumerics(name)))
  {
    SlugKeepsAlphanumerics(name);
    UntruncatedSlugIsClean(name);
    PrefixKeepsNonDashPrefix(CutSlug(UntruncatedSlug(name)), UntruncatedSlug(name));
  }

  /**
   * A clean slug followed by a dash survives the whole chain at the front of
   * the result, as long as the cut does not reach into it.
   */
  lemma SlugKeepsCleanPrefix(p: string, name: string)
    requires p != [] && IsCleanSlug(p) && |p| <= MaxSlugLength
    ensures p <= ProjectSlugFromName(p + "-" + name)
  {
    var b := EarlyStagesKeepPrefix(p, name);
    LateStagesKeepPrefix(p, "-" + b);
    var u := UntruncatedSlug(p + "-" + name);
    UntruncatedSlugIsClean(p + "-" + name);
    CutKeepsShortPrefix(p, u);
  }

  /** The first two stages leave the prefix and its dash in front. */
  lemma EarlyStagesKeepPrefix(p: string, name: string) returns (b: string)
    requires IsCleanSlug(p)
    ensures SplitCamel(ReplaceDisallowed(p + "-" + name)) == p + ("-" + b)
  {
    var x := p + "-";
    SlugPrefixIsSlugChars(p);
    SplitCamelAfterReplace(x, name);
    b := SplitCamel(ReplaceDisallowed(name));
    assert x + b == p + ("-" + b);
  }

  lemma SlugPrefixIsSlugChars(p: string)
    requires AllSlugChars(p)
    ensures AllSlugChars(p + "-")
  {
  }

  lemma SplitCamelAfterReplace(x: string, name: string)
    requires x != [] && AllSlugChars(x) && x[|x| - 1] == '-'
    ensures SplitCamel(ReplaceDisallowed(x + name)) == x + SplitCamel(ReplaceDisallowed(name))
  {
    ReplaceKeepsAllowedPrefix(x, name);
    SplitCamelKeepsSlugPrefix(x, ReplaceDisallowed(name));
  }

  /** The remaining stages before the cut leave a clean prefix in front. */
  lemma LateStagesKeepPrefix(p: string, z: string)
    requires p != [] && IsCleanSlug(p)
    ensures p <= ToLower(TrimTrailingDashes(TrimLeadingDashes(CollapseDashes(p + z))))
  {
    CollapseKeepsCleanPrefix(p, z);
    var c := CollapseDashes(p + z);
    TrimLeadingKeepsPrefix(p, c);
    var l := TrimLeadingDashes(c);
    TrimTrailingKeepsPrefix(p, l);
    ToLowerKeepsSlugPrefix(p, TrimTrailingDashes(l));
  }

  lemma CollapseKeepsCleanPrefix(p: string, z: string)
    requires p != [] && IsCleanSlug(p)
    ensures p <= CollapseDashes(p + z)
  {
    CollapseDropsRepeatedDashes(p + z);
    DropKeepsCleanPrefix(p, z);
  }

  lemma TrimLeadingKeepsPrefix(p: string, c: string)
    requires p != [] && p[0] != '-' && p <= c
    ensures p <= TrimLeadingDashes(c)
  {
  }

  lemma ToLowerKeepsSlugPrefix(p: string, d: string)
    requires AllSlugChars(p) && p <= d
    ensures p <= ToLower(d)
  {
    assert forall i :: 0 <= i < |p| ==> ToLower(d)[i] == LowerChar(d[i]);
  }

  lemma CutKeepsShortPrefix(p: string, u: string)
    requires IsCleanSlug(u) && p <= u && |p| <= MaxSlugLength
    ensures p <= CutSlug(u)
  {
  }

  lemma ReplaceKeepsAllowedPrefix(x: string, y: string)
    requires AllSlugChars(x)
    ensures ReplaceDisallowed(x + y) == x + ReplaceDisallowed(y)
  {
    var r := ReplaceDisallowed(x + y);
    var t := ReplaceDisallowed(y);
    assert forall i :: 0 <= i < |x| ==> (x + y)[i] == x[i];
    assert forall i :: |x| <= i < |x + y| ==> (x + y)[i] == y[i - |x|];
    assert forall i :: 0 <= i < |r| ==> r[i] == (x + t)[i];
  }

  lemma {:induction false} SplitCamelKeepsSlugPrefix(x: string, y: string)
    requires x != [] && AllSlugChars(x) && !IsLower(x[|x| - 1])
    ensures SplitCamel(x + y) == x + SplitCamel(y)
    decreases |x|
  {
    var s := x + y;
    if |x| == 1 {
      if y != [] {
        SplitCamelAtNonLower(s);
        assert s[1..] == y;
      }
    } else {
      assert IsSlugChar(x[1]) && s[1] == x[1];
      SplitCamelBeforeNonUpper(s);
      assert s[1..] == x[1..] + y;
      SplitCamelKeepsSlugPrefix(x[1..], y);
      ConsOntoRest(x, SplitCamel(y));
    }
  }

  lemma ConsOntoRest(x: string, t: string)
    requires x != []
    ensures [x[0]] + (x[1..] + t) == x + t
  {
    assert x == [x[0]] + x[1..];
  }

  lemma SplitCamelAtNonLower(s: string)
    requires |s| >= 2 && !IsLower(s[0])
    ensures SplitCamel(s) == [s[0]] + SplitCamel(s[1..])
  {
  }

  lemma SplitCamelBeforeNonUpper(s: string)
    requires |s| >= 2 && !IsUpper(s[1])
    ensures SplitCamel(s) == [s[0]] + SplitCamel(s[1..])
  {
  }

  lemma {:induction false} DropKeepsCleanPrefix(x: string, z: string)
    requires x != [] && NoDoubleDash(x) && x[|x| - 1] != '-'
    ensures DropRepeatedDashes(x + z) == x + DropRepeatedDashes(z)
    decreases |x|
  {
    if |x| > 1 {
      SuffixKeepsCharsAndDashes(x, 1);
      DropKeepsCleanPrefix(x[1..], z);
      assert (x + z)[1..] == x[1..] + z;
      assert x[0] == '-' ==> x[1] != '-';
    } else if z != [] {
      assert (x + z)[1..] == z;
    }
  }

  lemma TrimTrailingKeepsPrefix(x: string, c: string)
    requires x != [] && x[|x| - 1] != '-' && x <= c
    ensures x <= TrimTrailingDashes(c)
  {
    var t := TrimTrailingDashes(c);
    assert c[|x| - 1] != '-';
  }

  predicate AllLower(s: string) { forall i :: 0 <= i < |s| ==> IsLower(s[i]) }

  /**
   * The example of the source's comment, in general: a lower-case word, an
   * upper-case letter and more lower-case letters (`fooBar`) become the two
   * words in lower case joined by a dash (`foo-bar`).
   */
  lemma CamelCaseBecomesKebabCase(a: string, c: char, b: string)
    requires a != [] && AllLower(a) && IsUpper(c) && AllLower(b)
    requires |a| + |b| + 2 <= MaxSlugLength
    ensures ProjectSlugFromName(a + [c] + b) == a + ['-', LowerChar(c)] + b
  {
    CamelPairAllowed(a, c, b);
    SplitCamelOfCamelPair(a, c, b);
    KebabIsClean(a, c, b);
    ToLowerOfKebab(a, c, b);
    assert UntruncatedSlug(a + [c] + b) == a + ['-', LowerChar(c)] + b;
  }

  lemma CamelPairAllowed(a: string, c: char, b: string)
    requires AllLower(a) && IsUpper(c) && AllLower(b)
    ensures ReplaceDisallowed(a + [c] + b) == a + [c] + b
  {
    var s := a + [c] + b;
    assert forall i :: 0 <= i < |s| ==> s[i] == if i < |a| then a[i] else if i == |a| then c else b[i - |a| - 1];
    ReplaceOfAllowed(s);
  }

  lemma KebabIsClean(a: string, c: char, b: string)
    requires a != [] && AllLower(a) && IsUpper(c) && AllLower(b)
    ensures var t := a + ['-', c] + b;
            TrimTrailingDashes(TrimLeadingDashes(CollapseDashes(t))) == t
  {
    var t := a + ['-', c] + b;
    assert forall i :: 0 <= i < |t| ==> t[i] == if i < |a| then a[i] else if i == |a| then '-' else if i == |a| + 1 then c else b[i - |a| - 2];
    assert NoDoubleDash(t);
    CollapseOfSingleDashes(t);
    assert TrimLeadingDashes(t) == t;
    assert TrimTrailingDashes(t) == t;
  }

  lemma ToLowerOfKebab(a: string, c: char, b: string)
    requires AllLower(a) && AllLower(b)
    ensures ToLower(a + ['-', c] + b) == a + ['-', LowerChar(c)] + b
  {
    var t := a + ['-', c] + b;
    var k := a + ['-', LowerChar(c)] + b;
    assert forall i :: 0 <= i < |t| ==> t[i] == if i < |a| then a[i] else if i == |a| then '-' else if i == |a| + 1 then c else b[i - |a| - 2];
    assert forall i :: 0 <= i < |k| ==> k[i] == if i < |a| then a[i] else if i == |a| then '-' else if i == |a| + 1 then LowerChar(c) else b[i - |a| - 2];
  }

  /** A string without a lower-then-upper pair is left alone by the camel-case split. */
  lemma {:induction false} SplitCamelOfNoBoundary(s: string)
    requires NoCamelBoundary(s)
    ensures SplitCamel(s) == s
    decreases |s|
  {
    if |s| >= 2 {
      assert !(IsLower(s[0]) && IsUpper(s[1]));
      NoCamelBoundarySuffix(s);
      SplitCamelOfNoBoundary(s[1..]);
    }
  }

  lemma NoCamelBoundarySuffix(s: string)
    requires |s| >= 1 && NoCamelBoundary(s)
    ensures NoCamelBoundary(s[1..])
  {
    var t := s[1..];
    forall i, j | 0 <= i < |t| && 0 <= j < |t| && j == i + 1 && IsLower(t[i])
      ensures !IsUpper(t[j])
    {
      assert t[i] == s[i + 1] && t[j] == s[j + 1];
    }
  }

  lemma {:induction false} SplitCamelOfCamelPair(a: string, c: char, b: string)
    requires a != [] && AllLower(a) && IsUpper(c) && AllLower(b)
    ensures SplitCamel(a + [c] + b) == a + ['-', c] + b
    decreases |a|
  {
    if |a| == 1 {
      SplitCamelAtPair(a[0], c, b);
      assert a + [c] + b == [a[0], c] + b;
      assert a + ['-', c] + b == [a[0], '-'] + ([c] + b);
    } else {
      SplitCamelOfCamelPair(a[1..], c, b);
      SplitCamelBeforePair(a, c, b);
    }
  }

  /** One lower-case letter more in front of the pair is kept as it is. */
  lemma SplitCamelBeforePair(a: string, c: char, b: string)
    requires |a| >= 2 && !IsUpper(a[1])
    requires SplitCamel(a[1..] + [c] + b) == a[1..] + ['-', c] + b
    ensures SplitCamel(a + [c] + b) == a + ['-', c] + b
  {
    var tail := a[1..] + [c] + b;
    assert a + [c] + b == [a[0]] + tail && tail[0] == a[1];
    SplitCamelKeeps(a[0], tail);
    assert a + ['-', c] + b == [a[0]] + (a[1..] + ['-', c] + b);
  }

  lemma SplitCamelKeeps(x: char, t: string)
    requires t != [] && !IsUpper(t[0])
    ensures SplitCamel([x] + t) == [x] + SplitCamel(t)
  {
    assert ([x] + t)[1..] == t;
  }

  lemma SplitCamelAtPair(x: char, c: char, b: string)
    requires IsLower(x) && IsUpper(c) && AllLower(b)
    ensures SplitCamel([x, c] + b) == [x, '-'] + ([c] + b)
  {
    var rest := [c] + b;
    assert ([x, c] + b)[1..] == rest;
    assert forall k :: 1 <= k < |rest| ==> rest[k] == b[k - 1];
    SplitCamelOfNoBoundary(rest);
  }

  // ---------------------------------------------------------------------------
  // Template-name prefix (src/utils.ts:98-101)
  // ---------------------------------------------------------------------------

  /**
   * The first dash-separated part of the template name: the text before the first dash, or the whole
   * name when it has none.
   */
  function TemplateNamePrefix(templateName: string): (r: string)
    ensures '-' !in r
    ensures r <= templateName
    ensures r == templateName || templateName[|r|] == '-'
    decreases |templateName|
  {
    if templateName == [] || templateName[0] == '-' then []
    else [templateName[0]] + TemplateNamePrefix(templateName[1..])
  }

  lemma TemplateNamePrefixExample()
    ensures TemplateNamePrefix("v5-4815lib") == "v5"
  {
    assert "v5-4815lib"[1..] == "5-4815lib";
    assert "5-4815lib"[1..] == "-4815lib";
  }

  predicate NoAlphanumerics(s: string) { forall i :: 0 <= i < |s| ==> !IsAlphanumeric(s[i]) }

  /**
   * A run of characters that are neither letters nor digits (spaces,
   * punctuation, dashes) between two clean slug words becomes exactly one dash.
   */
  lemma SeparatorBecomesOneDash(a: string, sep: string, b: string)
    requires a != [] && b != [] && IsCleanSlug(a) && IsCleanSlug(b)
    requires sep != [] && NoAlphanumerics(sep)
    requires |a| + |b| + 1 <= MaxSlugLength
    ensures ProjectSlugFromName(a + sep + b) == a + "-" + b
  {
    var d := seq(|sep|, _ => '-');
    EarlyStagesOfSeparator(a, sep, b);
    DashRunCollapses(a, d, b);
    var k := a + "-" + b;
    JoinIsClean(a, b);
    LateStagesOfClean(k);
    assert UntruncatedSlug(a + sep + b) == k;
  }

  /** Spaces and punctuation between two words become one dash: `foo & bar` gives `foo-bar`. */
  lemma PunctuationBecomesOneDash()
    ensures ProjectSlugFromName("foo & bar") == "foo-bar"
  {
    var a, sep, b := "foo", " & ", "bar";
    assert a + sep + b == "foo & bar";
    assert a + "-" + b == "foo-bar";
    assert IsCleanSlug(a) && IsCleanSlug(b);
    assert NoAlphanumerics(sep);
    SeparatorBecomesOneDash(a, sep, b);
  }

  lemma EarlyStagesOfSeparator(a: string, sep: string, b: string)
    requires AllSlugChars(a) && AllSlugChars(b) && NoAlphanumerics(sep)
    ensures SplitCamel(ReplaceDisallowed(a + sep + b)) == a + seq(|sep|, _ => '-') + b
  {
    var d := seq(|sep|, _ => '-');
    SeparatorReplaced(a, sep, b);
    var t := a + d + b;
    assert AllSlugChars(t) by {
      assert forall i :: 0 <= i < |t| ==> t[i] == if i < |a| then a[i] else if i < |a| + |d| then '-' else b[i - |a| - |d|];
    }
    SplitCamelOfLower(t);
  }

  lemma JoinIsClean(a: string, b: string)
    requires a != [] && b != [] && IsCleanSlug(a) && IsCleanSlug(b)
    ensures IsCleanSlug(a + "-" + b)
  {
    var k := a + "-" + b;
    assert forall i :: 0 <= i < |k| ==> k[i] == if i < |a| then a[i] else if i == |a| then '-' else b[i - |a| - 1];
  }

  /** The stages after the collapse leave a clean slug as it is. */
  lemma LateStagesOfClean(k: string)
    requires IsCleanSlug(k)
    ensures ToLower(TrimTrailingDashes(TrimLeadingDashes(k))) == k
  {
    assert TrimLeadingDashes(k) == k;
    assert TrimTrailingDashes(k) == k;
    ToLowerOfLower(k);
  }

  lemma SeparatorReplaced(a: string, sep: string, b: string)
    requires AllSlugChars(a) && AllSlugChars(b) && NoAlphanumerics(sep)
    ensures ReplaceDisallowed(a + sep + b) == a + seq(|sep|, _ => '-') + b
  {
    var s := a + sep + b;
    var t := a + seq(|sep|, _ => '-') + b;
    var r := ReplaceDisallowed(s);
    forall i | 0 <= i < |s|
      ensures r[i] == t[i]
    {
      if i < |a| {
        assert s[i] == a[i] && t[i] == a[i];
      } else if i < |a| + |sep| {
        assert s[i] == sep[i - |a|] && t[i] == '-';
      } else {
        assert s[i] == b[i - |a| - |sep|] && t[i] == b[i - |a| - |sep|];
      }
    }
  }

  /** Between two clean words, a run of dashes collapses to one. */
  lemma DashRunCollapses(a: string, d: string, b: string)
    requires a != [] && b != [] && IsCleanSlug(a) && IsCleanSlug(b)
    requires d != [] && forall i :: 0 <= i < |d| ==> d[i] == '-'
    ensures CollapseDashes(a + d + b) == a + "-" + b
  {
    assert a + d + b == a + (d + b);
    CollapseDropsRepeatedDashes(a + d + b);
    DropAfterCleanText(a, d + b);
    DropDashRun(d, b);
    CollapseOfSingleDashes(b);
    CollapseDropsRepeatedDashes(b);
  }

  lemma {:induction false} DropAfterCleanText(a: string, t: string)
    requires a != [] && NoDoubleDash(a) && a[|a| - 1] != '-'
    ensures DropRepeatedDashes(a + t) == a + DropRepeatedDashes(t)
    decreases |a|
  {
    var at := a + t;
    if |a| == 1 {
      if t == [] {
        assert at == a;
      } else {
        assert at[0] == a[0] && at[1..] == t;
        DropStep(at);
        assert DropHead(at) == a;
      }
    } else {
      SuffixKeepsCharsAndDashes(a, 1);
      DropAfterCleanText(a[1..], t);
      assert at[0] == a[0] && at[1] == a[1] && at[1..] == a[1..] + t;
      assert !(a[0] == '-' && a[1] == '-');
      DropStep(at);
      assert DropHead(at) == [a[0]];
      assert a == [a[0]] + a[1..];
      AppendAssoc3([a[0]], a[1..], DropRepeatedDashes(t));
    }
  }

  /** What the first character of a text of two or more contributes once repeated dashes are dropped. */
  function DropHead(s: string): string
    requires |s| >= 2
  {
    if s[0] == '-' && s[1] == '-' then [] else [s[0]]
  }

  lemma DropStep(s: string)
    requires |s| >= 2
    ensures DropRepeatedDashes(s) == DropHead(s) + DropRepeatedDashes(s[1..])
  {
  }

  lemma AppendAssoc3(p: string, x: string, y: string)
    ensures p + (x + y) == (p + x) + y
  {
  }

  lemma {:induction false} DropDashRun(d: string, b: string)
    requires d != [] && forall i :: 0 <= i < |d| ==> d[i] == '-'
    requires b != [] && b[0] != '-'
    ensures DropRepeatedDashes(d + b) == "-" + DropRepeatedDashes(b)
    decreases |d|
  {
    if |d| == 1 {
      assert (d + b)[0] == '-' && (d + b)[1] == b[0] && (d + b)[1..] == b;
    } else {
      assert forall i :: 0 <= i < |d[1..]| ==> d[1..][i] == d[i + 1];
      DropDashRun(d[1..], b);
      assert (d + b)[0] == '-' && (d + b)[1] == d[1] && (d + b)[1..] == d[1..] + b;
    }
  }

  // ---------------------------------------------------------------------------
  // Decimal numbers, as JavaScript prints and parses them
  // ---------------------------------------------------------------------------

  function DigitChar(d: nat): (c: char)
    requires d < 10
    ensures IsDigit(c) && DigitValue(c) == d
  {
    ('0' as int + d) as char
  }

  function DigitValue(c: char): int { c as int - '0' as int }

  /** The decimal form of a natural number, as JavaScript prints it. */
  function NatToString(n: nat): (s: string)
    ensures |s| > 0
    ensures forall i :: 0 <= i < |s| ==> IsDigit(s[i])
    ensures s[|s| - 1] == DigitChar(n % 10)
    ensures s[0] == '0' ==> n == 0
    ensures |s| == 1 <==> n < 10
    decreases n
  {
    if n < 10 then [DigitChar(n)] else NatToString(n / 10) + [DigitChar(n % 10)]
  }

  /** The decimal form of an integer: a minus sign before the digits of a negative one. */
  function IntToString(n: int): (s: string)
    ensures |s| > 0
    ensures s[0] == '-' <==> n < 0
    ensures forall i :: 0 < i < |s| ==> IsDigit(s[i])
    ensures n < 0 ==> ParseDigits(s[1..]) == -n
    ensures n >= 0 ==> ParseDigits(s) == n
    ensures n >= 0 ==> IsCanonicalDecimal(s)
    ensures n < 0 ==> IsCanonicalDecimal(s[1..])
  {
    if n < 0 then
      ParseNatToString(-n);
      var t := NatToString(-n);
      assert ("-" + t)[1..] == t;
      "-" + t
    else
      ParseNatToString(n);
      NatToString(n)
  }

  /** `parseInt` on a string of decimal digits. */
  function ParseDigits(s: string): (r: int)
    ensures AllDigits(s) ==> 0 <= r < Pow10(|s|)
    decreases |s|
  {
    if s == [] then 0
    else
      var t := s[..|s| - 1];
      assert AllDigits(s) ==> AllDigits(t);
      ParseDigits(t) * 10 + DigitValue(s[|s| - 1])
  }

  predicate AllDigits(s: string) { forall i :: 0 <= i < |s| ==> IsDigit(s[i]) }

  function Pow10(k: nat): nat {
    if k == 0 then 1 else 10 * Pow10(k - 1)
  }

  /** Printing a natural number and parsing it back gives the number. */
  lemma {:induction false} ParseNatToString(n: nat)
    ensures ParseDigits(NatToString(n)) == n
    decreases n
  {
    if n >= 10 {
      ParseNatToString(n / 10);
      var s := NatToString(n / 10) + [DigitChar(n % 10)];
      assert s[..|s| - 1] == NatToString(n / 10);
    }
  }

  /** A decimal form as JavaScript prints it: digits, with no leading zero unless the number is 0. */
  predicate IsCanonicalDecimal(s: string) {
    s != [] && AllDigits(s) && (s[0] == '0' ==> |s| == 1)
  }

  /**
   * Every canonical decimal form is the printed form of the number it spells;
   * with `ParseNatToString`, printing is a bijection onto the canonical forms.
   */
  lemma {:induction false} CanonicalDecimalRoundTrip(s: string)
    requires IsCanonicalDecimal(s)
    ensures ParseDigits(s) >= 0 && NatToString(ParseDigits(s)) == s
    decreases |s|
  {
    if |s| == 1 {
      assert s == [s[0]];
      ParseOneDigit(s[0]);
      DigitOfValue(s[0]);
    } else {
      var p := s[..|s| - 1];
      var c := s[|s| - 1];
      assert p[0] == s[0] && AllDigits(p);
      CanonicalDecimalRoundTrip(p);
      LeadingNonZeroPositive(p);
      DigitOfValue(c);
      var v := ParseDigits(s);
      assert v == ParseDigits(p) * 10 + DigitValue(c);
      assert v / 10 == ParseDigits(p) && v % 10 == DigitValue(c);
      assert NatToString(v) == NatToString(v / 10) + [DigitChar(v % 10)];
      assert s == p + [c];
    }
  }

  lemma DigitOfValue(c: char)
    requires IsDigit(c)
    ensures 0 <= DigitValue(c) < 10 && DigitChar(DigitValue(c)) == c
  {
  }

  lemma {:induction false} LeadingNonZeroPositive(p: string)
    requires p != [] && AllDigits(p) && p[0] != '0'
    ensures ParseDigits(p) >= 1
    decreases |p|
  {
    if |p| == 1 {
      ParseOneDigit(p[0]);
    } else {
      var q := p[..|p| - 1];
      assert q[0] == p[0] && AllDigits(q);
      LeadingNonZeroPositive(q);
      assert IsDigit(p[|p| - 1]);
    }
  }

  /** The last two characters of a string, or all of it when it is shorter. */
  function LastTwo(s: string): (r: string)
    ensures |r| <= |s| && r == s[|s| - |r|..]
    ensures |r| == if |s| < 2 then |s| else 2
  {
    if |s| <= 2 then s else s[|s| - 2..]
  }

  /** The number the last two decimal digits of the year spell. */
  function TwoDigitYear(year: nat): (y: int)
    ensures y == year % 100
  {
    TwoDigitYearIsRemainder(year);
    ParseDigits(LastTwo(NatToString(year)))
  }

  lemma TwoDigitYearIsRemainder(year: nat)
    ensures ParseDigits(LastTwo(NatToString(year))) == year % 100
  {
    if year < 10 {
      OneDigitYear(year);
    } else {
      var a, b := (year / 10) % 10, year % 10;
      var str := LastTwo(NatToString(year));
      LastTwoDigits(year);
      assert str == [DigitChar(a), DigitChar(b)];
      ParseTwoDigits(DigitChar(a), DigitChar(b));
      assert ParseDigits(str) == a * 10 + b;
      DivModTwoDigits(year);
      assert a * 10 + b == year % 100;
    }
  }

  lemma OneDigitYear(year: nat)
    requires year < 10
    ensures ParseDigits(LastTwo(NatToString(year))) == year % 100
  {
    var c := DigitChar(year);
    OneDigitString(year);
    assert LastTwo([c]) == [c];
    ParseOneDigit(c);
    SmallRemainder(year);
  }

  lemma OneDigitString(n: nat)
    requires n < 10
    ensures NatToString(n) == [DigitChar(n)]
  {
  }

  lemma SmallRemainder(n: nat)
    requires n < 10
    ensures n % 100 == n
  {
  }

  lemma ParseOneDigit(c: char)
    ensures ParseDigits([c]) == DigitValue(c)
  {
    assert [c][..0] == [];
  }

  lemma LastTwoDigits(year: nat)
    requires year >= 10
    ensures LastTwo(NatToString(year)) == [DigitChar((year / 10) % 10), DigitChar(year % 10)]
  {
    var t := NatToString(year / 10);
    assert NatToString(year) == t + [DigitChar(year % 10)];
    LastTwoOfAppend(t, DigitChar(year % 10));
  }

  lemma LastTwoOfAppend(t: string, d: char)
    requires |t| > 0
    ensures LastTwo(t + [d]) == [t[|t| - 1], d]
  {
    var s := t + [d];
    assert s[|s| - 2..] == [s[|s| - 2], s[|s| - 1]];
  }

  lemma ParseTwoDigits(a: char, b: char)
    ensures ParseDigits([a, b]) == DigitValue(a) * 10 + DigitValue(b)
  {
    assert [a, b][..1] == [a];
    assert [a][..0] == [];
    assert ParseDigits([a]) == DigitValue(a);
  }

  lemma DivModTwoDigits(n: nat)
    ensures ((n / 10) % 10) * 10 + n % 10 == n % 100
  {
    var q := n / 100;
    var r := n % 100;
    assert n == q * 100 + r;
    assert n / 10 == q * 10 + r / 10;
    assert (n / 10) % 10 == r / 10;
    assert n % 10 == r % 10;
  }

  // ---------------------------------------------------------------------------
  // Competition season (src/utils.ts:87-96)
  // ---------------------------------------------------------------------------

  /**
   * The two season years of `getCompetitionSessionYearString`, as numbers:
   * from May (month 5) on, the season runs from this year into the next;
   * before May, from the previous year into this one. `month` is 1-based.
   */
  function CompetitionSeasonYears(year: nat, month: int): (r: (int, int))
    ensures r.1 == r.0 + 1
    ensures month >= 5 ==> r.0 == year % 100
    ensures month < 5 ==> r.1 == year % 100
  {
    var y := TwoDigitYear(year);
    if month >= 5 then (y, y + 1) else (y - 1, y)
  }

  /** The two years printed one after the other, with no padding and no separator. */
  function CompetitionSeasonString(year: nat, month: int): (r: string)
    ensures var y := CompetitionSeasonYears(year, month); r == IntToString(y.0) + IntToString(y.1)
    ensures 2 <= |r| <= 5
    ensures r[0] == '-' <==> month < 5 && year % 100 == 0
    ensures forall i :: 0 < i < |r| ==> IsDigit(r[i])
  {
    var (first, second) := CompetitionSeasonYears(year, month);
    SeasonParts(first, second);
    IntToString(first) + IntToString(second)
  }

  /** Two consecutive years of a season, printed one after the other. */
  lemma SeasonParts(first: int, second: int)
    requires -1 <= first <= 99 && second == first + 1
    ensures var r := IntToString(first) + IntToString(second);
            && 2 <= |r| <= 5
            && (r[0] == '-' <==> first < 0)
            && forall i :: 0 < i < |r| ==> IsDigit(r[i])
  {
    var x, y := IntToString(first), IntToString(second);
    NatToStringLength(if first < 0 then -first else first);
    NatToStringLength(second);
    assert 1 <= |x| <= 2 && 1 <= |y| <= 3;
    var r := x + y;
    forall i | 0 < i < |r|
      ensures IsDigit(r[i])
    {
      if i < |x| {
        assert r[i] == x[i];
      } else {
        assert r[i] == y[i - |x|];
      }
    }
  }

  lemma NatToStringLength(n: nat)
    ensures n < 100 ==> |NatToString(n)| <= 2
    ensures n <= 100 ==> |NatToString(n)| <= 3
  {
    if n >= 10 {
      assert |NatToString(n)| == |NatToString(n / 10)| + 1;
    }
  }

  /** From May on, the season starts in the current year. */
  lemma SeasonInAutumn()
    ensures CompetitionSeasonString(2024, 9) == "2425"
  {
    NatToStringTwoDigits(24);
    NatToStringTwoDigits(25);
    assert DigitChar(2) == '2' && DigitChar(4) == '4' && DigitChar(5) == '5';
    assert CompetitionSeasonYears(2024, 9) == (24, 25);
  }

  /** Before May, the season started in the previous year. */
  lemma SeasonInSpring()
    ensures CompetitionSeasonString(2024, 3) == "2324"
  {
    NatToStringTwoDigits(23);
    NatToStringTwoDigits(24);
    assert DigitChar(2) == '2' && DigitChar(3) == '3' && DigitChar(4) == '4';
    assert CompetitionSeasonYears(2024, 3) == (23, 24);
  }

  /** Early in a year ending in 00 the first year is -1, printed with its sign. */
  lemma SeasonAtCenturyStart()
    ensures CompetitionSeasonString(2000, 1) == "-10"
  {
    assert CompetitionSeasonYears(2000, 1) == (-1, 0);
    assert NatToString(1) == "1" && NatToString(0) == "0";
  }

  /** In the last year of a century the season's second year has three digits. */
  lemma SeasonAtCenturyEnd()
    ensures CompetitionSeasonString(2099, 9) == "99100"
  {
    assert CompetitionSeasonYears(2099, 9) == (99, 100);
    NatToStringTwoDigits(99);
    assert DigitChar(9) == '9' && DigitChar(1) == '1' && DigitChar(0) == '0';
    assert NatToString(10) == "10";
    assert NatToString(100) == NatToString(10) + "0";
  }

  /** Single-digit years are not padded. */
  lemma SeasonWithoutPadding()
    ensures CompetitionSeasonString(2005, 6) == "56"
  {
    assert CompetitionSeasonYears(2005, 6) == (5, 6);
    assert NatToString(5) == "5" && NatToString(6) == "6";
  }

  lemma NatToStringTwoDigits(n: nat)
    requires 10 <= n < 100
    ensures NatToString(n) == [DigitChar(n / 10), DigitChar(n % 10)]
  {
  }

  // ---------------------------------------------------------------------------
  // Paths (src/utils.ts:131-155)
  // ---------------------------------------------------------------------------

  /**
   * The host's path conventions: the separator (`path.sep`) and whether the
   * file system is treated as case-insensitive (Windows and macOS).
   */
  datatype Platform = Platform(sep: char, caseInsensitive: bool)

  /** `normalizePath`: lower-cased on case-insensitive platforms. */
  function NormalizePath(pl: Platform, path: string): (r: string)
    ensures |r| == |path|
    ensures !pl.caseInsensitive ==> r == path
    ensures pl.caseInsensitive ==> forall i :: 0 <= i < |r| ==> r[i] == LowerChar(path[i])
  {
    if pl.caseInsensitive then ToLower(path) else path
  }

  /** The parent with a separator appended unless it already ends in one. */
  function WithTrailingSeparator(pl: Platform, parent: string): (r: string)
    ensures r == parent || r == parent + [pl.sep]
    ensures |r| > 0 && r[|r| - 1] == pl.sep
    ensures parent != [] && parent[|parent| - 1] == pl.sep ==> r == parent
  {
    if parent != [] && parent[|parent| - 1] == pl.sep then parent else parent + [pl.sep]
  }

  /** Whether `descendant` is `parent` itself or lies below it. */
  function IsDescendant(pl: Platform, parent: string, descendant: string): (b: bool)
    ensures parent == descendant ==> b
    ensures b ==> |descendant| >= |parent|
  {
    parent == descendant
    || NormalizePath(pl, WithTrailingSeparator(pl, parent)) <= NormalizePath(pl, descendant)
  }

  /** Whether two paths name the same file once normalised. */
  function PathEquals(pl: Platform, a: string, b: string): (r: bool)
    ensures a == b ==> r
    ensures r ==> |a| == |b|
    ensures !pl.caseInsensitive ==> (r <==> a == b)
  {
    NormalizePath(pl, a) == NormalizePath(pl, b)
  }

  lemma NormalizeConcat(pl: Platform, a: string, b: string)
    ensures NormalizePath(pl, a + b) == NormalizePath(pl, a) + NormalizePath(pl, b)
  {
    if pl.caseInsensitive { ToLowerConcat(a, b); }
  }

  /** A path below `parent`, joined with the separator, is its descendant. */
  lemma ChildIsDescendant(pl: Platform, parent: string, rest: string)
    ensures IsDescendant(pl, parent, parent + [pl.sep] + rest)
  {
    var p := WithTrailingSeparator(pl, parent);
    var d := parent + [pl.sep] + rest;
    if p == parent {
      assert d == p + ([pl.sep] + rest);
      NormalizeConcat(pl, p, [pl.sep] + rest);
    } else {
      assert d == p + rest;
      NormalizeConcat(pl, p, rest);
    }
  }

  /**
   * A descendant other than the parent itself continues with the separator
   * right after the parent's text (when the parent does not already end in
   * one): a path that merely shares a prefix is not a descendant.
   */
  lemma DescendantContinuesWithSeparator(pl: Platform, parent: string, descendant: string)
    requires IsDescendant(pl, parent, descendant) && parent != descendant
    requires parent == [] || parent[|parent| - 1] != pl.sep
    ensures |descendant| > |parent|
    ensures NormalizePath(pl, descendant)[..|parent| + 1] == NormalizePath(pl, parent + [pl.sep])
  {
    var p := parent + [pl.sep];
    assert WithTrailingSeparator(pl, parent) == p;
    var np := NormalizePath(pl, p);
    var nd := NormalizePath(pl, descendant);
    assert np <= nd;
    assert nd[..|p|] == np;
  }

  lemma SiblingWithSharedPrefix()
    ensures !IsDescendant(Platform('/', false), "/a/b", "/a/bc")
  {
    var withSep := "/a/b/";
    assert WithTrailingSeparator(Platform('/', false), "/a/b") == withSep;
    assert withSep[4] != "/a/bc"[4];
  }

  /** The same holds when paths are compared without regard to case. */
  lemma SiblingWithSharedPrefixIgnoringCase()
    ensures !IsDescendant(Platform('/', true), "/a/b", "/a/bc")
  {
    var pl := Platform('/', true);
    var withSep := "/a/b/";
    var sibling := "/a/bc";
    assert WithTrailingSeparator(pl, "/a/b") == withSep;
    assert withSep[4] == '/' && sibling[4] == 'c';
    assert LowerChar('/') == '/' && LowerChar('c') == 'c';
    assert ToLower(withSep)[4] == '/';
    assert ToLower(sibling)[4] == 'c';
  }

  lemma ChildPathIsDescendant()
    ensures IsDescendant(Platform('/', false), "/a/b", "/a/b/c")
  {
    ChildIsDescendant(Platform('/', false), "/a/b", "c");
    assert "/a/b" + ['/'] + "c" == "/a/b/c";
  }

  /** `pathEquals` is an equivalence relation. */
  lemma PathEqualsIsEquivalence(pl: Platform)
    ensures forall a :: PathEquals(pl, a, a)
    ensures forall a, b :: PathEquals(pl, a, b) ==> PathEquals(pl, b, a)
    ensures forall a, b, c :: PathEquals(pl, a, b) && PathEquals(pl, b, c) ==> PathEquals(pl, a, c)
  {
  }

  /**
   * On a case-insensitive platform two spellings of one path are equal but
   * neither is a descendant of the other: `isDescendant` tests exact equality
   * before normalising.
   */
  lemma EqualPathsNeedNotBeDescendants()
    ensures PathEquals(Platform('/', true), "/A", "/a")
    ensures !IsDescendant(Platform('/', true), "/A", "/a")
    ensures !IsDescendant(Platform('/', true), "/a", "/A")
  {
    assert ToLower("/A") == "/a";
    assert WithTrailingSeparator(Platform('/', true), "/A") == "/A/";
    assert WithTrailingSeparator(Platform('/', true), "/a") == "/a/";
    assert |ToLower("/A/")| > |ToLower("/a")|;
    assert |ToLower("/a/")| > |ToLower("/A")|;
  }

  // ---------------------------------------------------------------------------
  // Time since (src/utils.ts:60-85)
  // ---------------------------------------------------------------------------

  datatype TimeUnit = Years | Months | Days | Hours | Minutes | Seconds

  /** Seconds per unit: a year of 365 days, a month of 30 days. */
  function SecondsPer(u: TimeUnit): (n: nat)
    ensures n >= 1
  {
    match u
    case Years => 31536000
    case Months => 2592000
    case Days => 86400
    case Hours => 3600
    case Minutes => 60
    case Seconds => 1
  }

  /** Position of a unit in the order the thresholds are tried (largest first). */
  function UnitRank(u: TimeUnit): nat {
    match u
    case Years => 0
    case Months => 1
    case Days => 2
    case Hours => 3
    case Minutes => 4
    case Seconds => 5
  }

  /** A localised "N units" message, as its count and unit. */
  datatype Elapsed = Elapsed(count: int, unit: TimeUnit)

  /**
   * `timeSince(date)` at the clock reading `nowMs` (milliseconds) for a date
   * at `dateMs`: the first unit whose length the elapsed whole seconds
   * strictly exceed, counted in whole units; otherwise plain seconds.
   */
  function TimeSince(nowMs: int, dateMs: int): (r: Elapsed)
    ensures var seconds := (nowMs - dateMs) / 1000;
            && (forall u :: UnitRank(u) < UnitRank(r.unit) ==> seconds <= SecondsPer(u))
            && (r.unit != Seconds ==> seconds > SecondsPer(r.unit) && r.count >= 1)
            && r.count == seconds / SecondsPer(r.unit)
            && seconds * 1000 <= nowMs - dateMs < seconds * 1000 + 1000
  {
    var seconds := (nowMs - dateMs) / 1000;
    if seconds > 31536000 then Elapsed(seconds / 31536000, Years)
    else if seconds > 2592000 then Elapsed(seconds / 2592000, Months)
    else if seconds > 86400 then Elapsed(seconds / 86400, Days)
    else if seconds > 3600 then Elapsed(seconds / 3600, Hours)
    else if seconds > 60 then Elapsed(seconds / 60, Minutes)
    else Elapsed(seconds, Seconds)
  }

  /** Below a unit's threshold the count stays within the next larger unit. */
  lemma TimeSinceCountBounds(nowMs: int, dateMs: int)
    ensures var r := TimeSince(nowMs, dateMs);
            && (r.unit == Months ==> r.count <= 12)
            && (r.unit == Days ==> r.count <= 30)
            && (r.unit == Hours ==> r.count <= 24)
            && (r.unit == Minutes ==> r.count <= 60)
            && (r.unit == Seconds ==> r.count <= 60)
  {
  }

  lemma TimeSinceAtThreshold()
    ensures TimeSince(60000, 0) == Elapsed(60, Seconds)
    ensures TimeSince(61000, 0) == Elapsed(1, Minutes)
    ensures TimeSince(86400000, 0) == Elapsed(24, Hours)
  {
  }
}
