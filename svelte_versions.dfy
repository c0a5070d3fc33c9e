/**
 * `supports_svelte_versions`: which of the Svelte majors 3, 4 and 5 a package's peer-dependency
 * range admits, by the registry page's own reading of semver ranges (a chain of special cases
 * tried in order, the first that applies deciding).
 */
module SvelteVersions {
  import opened Wrappers
  import opened Text
  import opened JsNumber

  datatype Support = Support(v3: bool, v4: bool, v5: bool)

  const NoMajor: Support := Support(false, false, false)
  const AnyMajor: Support := Support(true, true, true)

  /** Whether major `k` is admitted. */
  predicate Supported(s: Support, k: int) {
    if k == 3 then s.v3 else if k == 4 then s.v4 else if k == 5 then s.v5 else false
  }

  /** The result for a range that names one major; `None` is `NaN`, which equals no major. */
  function Exactly(major: Option<int>): (r: Support)
    ensures forall k :: 3 <= k <= 5 ==> (Supported(r, k) <==> major == Some(k))
  {
    Support(major == Some(3), major == Some(4), major == Some(5))
  }

  function Or(a: Support, b: Support): Support {
    Support(a.v3 || b.v3, a.v4 || b.v4, a.v5 || b.v5)
  }

  function TrimAll(parts: seq<string>): (r: seq<string>)
    ensures |r| == |parts| && forall i :: 0 <= i < |r| ==> r[i] == Trim(parts[i])
  {
    seq(|parts|, i requires 0 <= i < |parts| => Trim(parts[i]))
  }

  /** A constraint of a multi-bound range: a space-separated word starting with `<` or `>`. */
  predicate IsBound(c: string) { c != [] && (c[0] == '<' || c[0] == '>') }

  function Constraints(words: seq<string>): (r: seq<string>)
    ensures forall c :: c in r <==> c in words && IsBound(c)
  {
    if words == [] then []
    else (if IsBound(words[0]) then [words[0]] else []) + Constraints(words[1..])
  }

  function AnyHyphen(cs: seq<string>): (r: bool)
    ensures r <==> exists c :: c in cs && '-' in c
  {
    if cs == [] then false else '-' in cs[0] || AnyHyphen(cs[1..])
  }

  /** `s.startsWith` a one- or two-character prefix. */
  predicate Leads(s: string, c: char) { s != [] && s[0] == c }
  predicate Leads2(s: string, c: char, d: char) { |s| >= 2 && s[0] == c && s[1] == d }

  predicate IsOp(c: char) { c == '<' || c == '>' || c == '=' }

  function OpRun(s: string): (r: nat)
    ensures r <= |s|
  {
    if s != [] && IsOp(s[0]) then 1 + OpRun(s[1..]) else 0
  }

  function SpaceRun(s: string): (r: nat)
    ensures r <= |s|
  {
    if s != [] && IsSpace(s[0]) then 1 + SpaceRun(s[1..]) else 0
  }

  /**
   * The first match of `/[<>=]+\s*(\d+)/` in `c` from position `i` on, read with `parseInt`:
   * a run of `<`, `>`, `=`, optional whitespace, and the digits after them.
   */
  function BoundMajor(c: string, i: nat): Option<nat>
    requires i <= |c|
    decreases |c| - i
  {
    if i == |c| then None
    else if IsOp(c[i]) then
      var j := i + OpRun(c[i..]);
      var k := j + SpaceRun(c[j..]);
      if k < |c| && IsDigit(c[k]) then Some(DigitsValue(c[k..][..LeadingDigits(c[k..])]))
      else BoundMajor(c, i + 1)
    else BoundMajor(c, i + 1)
  }

  /** The narrow-range search: the one major every matching constraint names, if they agree. */
  function NarrowMajor(cs: seq<string>, major: Option<nat>): Option<nat>
    decreases |cs|
  {
    if cs == [] then major
    else match BoundMajor(cs[0], 0)
      case None => NarrowMajor(cs[1..], major)
      case Some(v) =>
        if major.None? then NarrowMajor(cs[1..], Some(v))
        else if major.value != v then None
        else NarrowMajor(cs[1..], major)
  }

  /** Whether one bound of a multi-bound range rules out major `k`. */
  predicate Excludes(c: string, k: int) {
    if Leads2(c, '>', '=') then Gt(ParseFloat(c[2..]), k)
    else if Leads(c, '>') then Ge(ParseFloat(c[1..]), k)
    else if Leads2(c, '<', '=') then Lt(ParseFloat(c[2..]), k)
    else if Leads(c, '<') then Le(ParseFloat(c[1..]), k)
    else false
  }

  function AllowsAll(cs: seq<string>, k: int): (r: bool)
    ensures r <==> forall c :: c in cs ==> !Excludes(c, k)
  {
    if cs == [] then true else !Excludes(cs[0], k) && AllowsAll(cs[1..], k)
  }

  /** `/^[0-9]+\./` holds: a run of digits and a dot. */
  predicate DigitsDot(s: string) {
    var n := LeadingDigits(s);
    n >= 1 && n < |s| && s[n] == '.'
  }

  /** The text after `DigitsDot`'s digits and dot. */
  function AfterDot(s: string): string
    requires DigitsDot(s)
  {
    s[LeadingDigits(s) + 1..]
  }

  /** `/^([0-9]+)\.([0-9]+)\.([0-9]+)-/`. */
  predicate PreRelease(r: string) {
    DigitsDot(r) && DigitsDot(AfterDot(r))
    && var b := AfterDot(AfterDot(r));
       LeadingDigits(b) >= 1 && LeadingDigits(b) < |b| && b[LeadingDigits(b)] == '-'
  }

  /** `/^[0-9]+\.[0-9]+\.[0-9]+$/`. */
  predicate ExactVersion(r: string) {
    DigitsDot(r) && DigitsDot(AfterDot(r))
    && var b := AfterDot(AfterDot(r));
       LeadingDigits(b) >= 1 && LeadingDigits(b) == |b|
  }

  /** `/^([0-9]+)\.(x|\*)/`. */
  predicate Wildcard(r: string) {
    DigitsDot(r) && var n := LeadingDigits(r); n + 1 < |r| && (r[n + 1] == 'x' || r[n + 1] == '*')
  }

  /** `parseInt` of the leading digits. */
  function LeadingMajor(r: string): nat {
    DigitsValue(r[..LeadingDigits(r)])
  }

  /** `s.split('.')[0]`. */
  function FirstDotPiece(s: string): string {
    match IndexOf(s, ".")
    case None => s
    case Some(i) => s[..i]
  }

  predicate Complex(r: string) {
    Contains(r, " ") && ('<' in r || '>' in r)
  }

  lemma SplitShorter(s: string, sep: string)
    requires |sep| > 0
    ensures forall p :: p in Split(s, sep) ==> |p| <= |s|
    ensures Contains(s, sep) ==> forall p :: p in Split(s, sep) ==> |p| < |s|
    decreases |s|
  {
    match IndexOf(s, sep)
    case None =>
    case Some(i) =>
      SplitShorter(s[i + |sep|..], sep);
  }

  lemma TrimShorter(s: string)
    ensures |Trim(s)| <= |s|
  {
  }

  /** The trimmed parts of an `||` range; each is shorter than the range. */
  function Alternatives(r: string): (ps: seq<string>)
    requires Contains(r, "||")
    ensures forall p :: p in ps ==> |p| < |r|
  {
    AlternativesShorter(r);
    TrimAll(Split(r, "||"))
  }

  lemma AlternativesShorter(r: string)
    requires Contains(r, "||")
    ensures forall p :: p in TrimAll(Split(r, "||")) ==> |p| < |r|
  {
    SplitShorter(r, "||");
    var ps := Split(r, "||");
    forall p | p in TrimAll(ps) ensures |p| < |r| {
      var i :| 0 <= i < |ps| && TrimAll(ps)[i] == p;
      TrimShorter(ps[i]);
      assert ps[i] in ps;
    }
  }

  /** The per-part results of an `||` range, combined with OR. */
  function OrPieces(ps: seq<string>, bound: nat): Support
    requires forall p :: p in ps ==> |p| < bound
    decreases bound, 0, |ps|
  {
    if ps == [] then NoMajor else Or(Supports(ps[0]), OrPieces(ps[1..], bound))
  }

  lemma OrPiecesStep(ps: seq<string>, i: nat, bound: nat)
    requires i < |ps| && forall p :: p in ps ==> |p| < bound
    ensures OrPieces(ps[i..], bound) == Or(Supports(ps[i]), OrPieces(ps[i + 1..], bound))
  {
    assert ps[i..][1..] == ps[i + 1..];
  }

  /** One more part ORed into the running result keeps the loop's invariant. */
  lemma OrAccumulate(acc: Support, part: Support, ps: seq<string>, i: nat, bound: nat)
    requires i < |ps| && forall p :: p in ps ==> |p| < bound
    requires Or(acc, OrPieces(ps[i..], bound)) == OrPieces(ps, bound)
    requires part == Supports(ps[i])
    ensures Or(Or(acc, part), OrPieces(ps[i + 1..], bound)) == OrPieces(ps, bound)
  {
    OrPiecesStep(ps, i, bound);
  }

  /** The result for a range, with the special cases in the order the code tries them. */
  function Supports(r: string): Support
    decreases |r|, 1, 0
  {
    if r == "" then NoMajor
    else if Contains(r, "||") then OrPieces(Alternatives(r), |r|)
    else if Leads(r, '=') then Supports(r[1..])
    else if Contains(r, " - ") && |Split(r, "-")| == 2 then
      var parts := TrimAll(Split(r, "-"));
      var start, end := ParseFloat(parts[0]), ParseFloat(parts[1]);
      Support(Le(start, 3) && Ge(end, 3), Le(start, 4) && Ge(end, 4), Le(start, 5) && Ge(end, 5))
    else if Complex(r) then
      var cs := Constraints(Split(r, " "));
      if cs == [] then NoMajor
      else if AnyHyphen(cs) && NarrowMajor(cs, None).Some? then Exactly(Some(NarrowMajor(cs, None).value))
      else Support(AllowsAll(cs, 3), AllowsAll(cs, 4), AllowsAll(cs, 5))
    else SingleWord(r)
  }

  /** The single-word forms, tried in order after the `||`, `=`, hyphen and multi-bound forms. */
  function SingleWord(r: string): Support {
    if AllDigits(r) then Exactly(Some(DigitsValue(r)))
    else if Leads(r, '^') then Exactly(ParseInt(FirstDotPiece(r[1..])))
    else if PreRelease(r) then Exactly(Some(LeadingMajor(r)))
    else if Leads(r, '~') then Exactly(ParseInt(FirstDotPiece(r[1..])))
    else if r == "*" then AnyMajor
    else if Wildcard(r) then Exactly(Some(LeadingMajor(r)))
    else if Leads2(r, '>', '=') then var v := ParseFloat(r[2..]); Support(Le(v, 3), Le(v, 4), Le(v, 5))
    else if Leads(r, '>') then var v := ParseFloat(r[1..]); Support(Lt(v, 3), Lt(v, 4), Lt(v, 5))
    else if Leads2(r, '<', '=') then var v := ParseFloat(r[2..]); Support(Ge(v, 3), Ge(v, 4), Ge(v, 5))
    else if Leads(r, '<') then var v := ParseFloat(r[1..]); Support(Gt(v, 3), Gt(v, 4), Gt(v, 5))
    else if ExactVersion(r) then Exactly(ParseInt(FirstDotPiece(r)))
    else if Contains(r, ".x") || Contains(r, ".*") then Exactly(ParseInt(FirstDotPiece(r)))
    else NoMajor
  }

  /** `supports_svelte_versions`, with the result's fields and the bound flags updated in loops. */
  method SupportsSvelteVersions(versionRange: string) returns (result: Support)
    ensures result == Supports(versionRange)
    decreases |versionRange|, 1
  {
    if versionRange == "" {
      return NoMajor;
    }
    result := NoMajor;
    if Contains(versionRange, "||") {
      result := AnyAlternative(versionRange);
      return;
    }
    if Leads(versionRange, '=') {
      result := SupportsSvelteVersions(versionRange[1..]);
      return;
    }
    if Contains(versionRange, " - ") {
      var parts := TrimAll(Split(versionRange, "-"));
      if |parts| == 2 {
        var start := ParseFloat(parts[0]);
        var end := ParseFloat(parts[1]);
        result := Support(Le(start, 3) && Ge(end, 3), Le(start, 4) && Ge(end, 4), Le(start, 5) && Ge(end, 5));
        return;
      }
    }
    if Complex(versionRange) {
      result := ComplexRange(versionRange);
      return;
    }
    result := SimpleRange(versionRange);
  }

  /** The `||` branch: every trimmed part classified on its own, the results combined with OR. */
  method AnyAlternative(versionRange: string) returns (result: Support)
    requires Contains(versionRange, "||")
    ensures result == OrPieces(Alternatives(versionRange), |versionRange|)
    decreases |versionRange|, 0
  {
    result := NoMajor;
    var ranges := Alternatives(versionRange);
    for i := 0 to |ranges|
      invariant Or(result, OrPieces(ranges[i..], |versionRange|)) == OrPieces(ranges, |versionRange|)
    {
      assert ranges[i] in ranges;
      var rangeResult := SupportsSvelteVersions(ranges[i]);
      OrAccumulate(result, rangeResult, ranges, i, |versionRange|);
      result := Support(result.v3 || rangeResult.v3, result.v4 || rangeResult.v4, result.v5 || rangeResult.v5);
    }
  }

  /** The multi-bound branch: the narrow pre-release case, then one flag per major cleared by any bound. */
  method ComplexRange(versionRange: string) returns (result: Support)
    ensures var cs := Constraints(Split(versionRange, " "));
      result == if cs == [] then NoMajor
                else if AnyHyphen(cs) && NarrowMajor(cs, None).Some? then Exactly(Some(NarrowMajor(cs, None).value))
                else Support(AllowsAll(cs, 3), AllowsAll(cs, 4), AllowsAll(cs, 5))
  {
    var includes3, includes4, includes5 := true, true, true;
    var constraints := Constraints(Split(versionRange, " "));
    if constraints == [] {
      return NoMajor;
    }
    if AnyHyphen(constraints) {
      var major := FindNarrowMajor(constraints);
      if major.Some? {
        return Exactly(Some(major.value));
      }
    }
    for i := 0 to |constraints|
      invariant (includes3 && AllowsAll(constraints[i..], 3)) == AllowsAll(constraints, 3)
      invariant (includes4 && AllowsAll(constraints[i..], 4)) == AllowsAll(constraints, 4)
      invariant (includes5 && AllowsAll(constraints[i..], 5)) == AllowsAll(constraints, 5)
    {
      assert constraints[i..][1..] == constraints[i + 1..];
      includes3, includes4, includes5 := ApplyBound(constraints[i], includes3, includes4, includes5);
    }
    result := Support(includes3, includes4, includes5);
  }

  /** The loop over the constraints that looks for one major named by all of them, leaving at the first disagreement. */
  method FindNarrowMajor(constraints: seq<string>) returns (major: Option<nat>)
    ensures major == NarrowMajor(constraints, None)
  {
    major := None;
    for i := 0 to |constraints|
      invariant NarrowMajor(constraints[i..], major) == NarrowMajor(constraints, None)
    {
      assert constraints[i..][1..] == constraints[i + 1..];
      var m := BoundMajor(constraints[i], 0);
      if m.Some? {
        if major.None? {
          major := m;
        } else if major.value != m.value {
          major := None;
          assert NarrowMajor(constraints, None) == None;
          return;
        }
      }
    }
  }

  /** One bound of a multi-bound range: each major it rules out loses its flag. */
  method ApplyBound(c: string, in3: bool, in4: bool, in5: bool) returns (out3: bool, out4: bool, out5: bool)
    ensures out3 == (in3 && !Excludes(c, 3))
    ensures out4 == (in4 && !Excludes(c, 4))
    ensures out5 == (in5 && !Excludes(c, 5))
  {
    out3, out4, out5 := in3, in4, in5;
    if Leads2(c, '>', '=') {
      var v := ParseFloat(c[2..]);
      if Gt(v, 3) { out3 := false; }
      if Gt(v, 4) { out4 := false; }
      if Gt(v, 5) { out5 := false; }
    } else if Leads(c, '>') {
      var v := ParseFloat(c[1..]);
      if Ge(v, 3) { out3 := false; }
      if Ge(v, 4) { out4 := false; }
      if Ge(v, 5) { out5 := false; }
    } else if Leads2(c, '<', '=') {
      var v := ParseFloat(c[2..]);
      if Lt(v, 3) { out3 := false; }
      if Lt(v, 4) { out4 := false; }
      if Lt(v, 5) { out5 := false; }
    } else if Leads(c, '<') {
      var v := ParseFloat(c[1..]);
      if Le(v, 3) { out3 := false; }
      if Le(v, 4) { out4 := false; }
      if Le(v, 5) { out5 := false; }
    }
  }

  /** The single-word forms, tried in order after the `||`, `=`, hyphen and multi-bound forms. */
  method SimpleRange(r: string) returns (result: Support)
    ensures result == SingleWord(r)
  {
    if AllDigits(r) {
      return Exactly(Some(DigitsValue(r)));
    }
    if Leads(r, '^') {
      return Exactly(ParseInt(FirstDotPiece(r[1..])));
    }
    if PreRelease(r) {
      return Exactly(Some(LeadingMajor(r)));
    }
    if Leads(r, '~') {
      return Exactly(ParseInt(FirstDotPiece(r[1..])));
    }
    if r == "*" {
      return AnyMajor;
    }
    if Wildcard(r) {
      return Exactly(Some(LeadingMajor(r)));
    }
    if Leads2(r, '>', '=') {
      var v := ParseFloat(r[2..]);
      return Support(Le(v, 3), Le(v, 4), Le(v, 5));
    }
    if Leads(r, '>') {
      var v := ParseFloat(r[1..]);
      return Support(Lt(v, 3), Lt(v, 4), Lt(v, 5));
    }
    if Leads2(r, '<', '=') {
      var v := ParseFloat(r[2..]);
      return Support(Ge(v, 3), Ge(v, 4), Ge(v, 5));
    }
    if Leads(r, '<') {
      var v := ParseFloat(r[1..]);
      return Support(Gt(v, 3), Gt(v, 4), Gt(v, 5));
    }
    if ExactVersion(r) || Contains(r, ".x") || Contains(r, ".*") {
      return Exactly(ParseInt(FirstDotPiece(r)));
    }
    return NoMajor;
  }

  /** `c` does not occur in `s`. */
  predicate Lacks(s: string, c: char) {
    forall i :: 0 <= i < |s| ==> s[i] != c
  }

  lemma NotContains(s: string, sub: string)
    requires |sub| > 0 && Lacks(s, sub[0])
    ensures !Contains(s, sub)
  {
  }

  lemma SupportedOr(a: Support, b: Support, k: int)
    ensures Supported(Or(a, b), k) <==> Supported(a, k) || Supported(b, k)
  {
  }

  /** A range made of `||`-separated parts admits a major exactly when one of its parts does. */
  lemma SupportsAlternatives(r: string, k: int)
    requires Contains(r, "||")
    ensures var ps := Alternatives(r);
      Supported(Supports(r), k) <==> exists i :: 0 <= i < |ps| && Supported(Supports(ps[i]), k)
  {
    OrPiecesAny(Alternatives(r), |r|, k);
  }

  lemma {:induction false} OrPiecesAny(ps: seq<string>, bound: nat, k: int)
    requires forall p :: p in ps ==> |p| < bound
    ensures Supported(OrPieces(ps, bound), k) <==> exists i :: 0 <= i < |ps| && Supported(Supports(ps[i]), k)
    decreases |ps|
  {
    if ps != [] {
      var tail := ps[1..];
      OrPiecesAny(tail, bound, k);
      SupportedOr(Supports(ps[0]), OrPieces(tail, bound), k);
      assert forall i :: 0 <= i < |tail| ==> tail[i] == ps[i + 1];
      if exists i :: 0 <= i < |ps| && Supported(Supports(ps[i]), k) {
        var i :| 0 <= i < |ps| && Supported(Supports(ps[i]), k);
        if i > 0 { assert Supported(Supports(tail[i - 1]), k); }
      }
    }
  }

  /** A leading `=` is dropped. */
  lemma SupportsEquals(r: string)
    requires Leads(r, '=') && !Contains(r, "||")
    ensures Supports(r) == Supports(r[1..])
  {
  }

  /** An empty range admits nothing, and `*` admits every major. */
  lemma SupportsEmptyAndStar()
    ensures Supports("") == NoMajor
    ensures Supports("*") == AnyMajor
  {
    NotContains("*", "||");
    NotContains("*", " - ");
    NotContains("*", " ");
    assert !AllDigits("*") && !PreRelease("*") && !Wildcard("*");
  }

  /** The facts that rule out the first five forms for one word with no space and no `|`. */
  lemma OneWord(r: string)
    requires r != [] && Lacks(r, ' ') && Lacks(r, '|') && r[0] != '='
    ensures Supports(r) == SingleWord(r)
  {
    NotContains(r, "||");
    NotContains(r, " - ");
    NotContains(r, " ");
  }

  /** A bare major `M` admits exactly major `M`. */
  lemma BareMajor(d: string)
    requires d != [] && AllDigits(d)
    ensures forall k :: 3 <= k <= 5 ==> (Supported(Supports(d), k) <==> DigitsValue(d) == k)
  {
    OneWord(d);
  }

  lemma DigitsThenDot(d: string, rest: string)
    requires AllDigits(d) && (rest == [] || rest[0] == '.')
    ensures FirstDotPiece(d + rest) == d
  {
    var s := d + rest;
    if rest == [] {
      assert s == d;
      NotContains(d, ".");
    } else {
      assert MatchesAt(s, ".", |d|);
      assert forall j :: 0 <= j < |d| ==> !MatchesAt(s, ".", j) by {
        forall j | 0 <= j < |d| ensures !MatchesAt(s, ".", j) {
          assert s[j..j + 1][0] == s[j];
        }
      }
    }
  }

  lemma NoSpaceNoBar(a: string, b: string)
    requires Lacks(a, ' ') && Lacks(a, '|') && Lacks(b, ' ') && Lacks(b, '|')
    ensures Lacks(a + b, ' ') && Lacks(a + b, '|')
  {
    forall i | 0 <= i < |a + b| ensures (a + b)[i] != ' ' && (a + b)[i] != '|' {
      if i >= |a| { assert (a + b)[i] == b[i - |a|]; }
    }
  }

  lemma DigitsLack(d: string)
    requires AllDigits(d)
    ensures Lacks(d, ' ') && Lacks(d, '|') && Lacks(d, '.')
  {
  }

  lemma SingleWordCaretTilde(r: string)
    requires r != [] && (r[0] == '^' || r[0] == '~')
    ensures SingleWord(r) == Exactly(ParseInt(FirstDotPiece(r[1..])))
  {
    assert !AllDigits(r) by { assert !IsDigit(r[0]); }
    assert !PreRelease(r) by { assert LeadingDigits(r) == 0; }
  }

  /** `^M...` and `~M...` admit exactly major `M`: the digits up to the first dot. */
  lemma CaretTildeMajor(r: string, d: string, rest: string)
    requires r != [] && (r[0] == '^' || r[0] == '~') && r[1..] == d + rest
    requires d != [] && AllDigits(d) && (rest == [] || rest[0] == '.')
    requires Lacks(r, ' ') && Lacks(r, '|')
    ensures forall k :: 3 <= k <= 5 ==> (Supported(Supports(r), k) <==> DigitsValue(d) == k)
  {
    OneWord(r);
    SingleWordCaretTilde(r);
    DigitsThenDot(d, rest);
    ParseIntDigits(d);
  }

  /** Digits, a dot and more: the leading major and the text after the dot. */
  lemma DigitsDotOf(d: string, rest: string)
    requires d != [] && AllDigits(d)
    ensures DigitsDot(d + "." + rest) && AfterDot(d + "." + rest) == rest
    ensures LeadingMajor(d + "." + rest) == DigitsValue(d)
  {
    var s := d + "." + rest;
    assert s == d + ("." + rest);
    LeadingDigitsStop(d, "." + rest);
    assert s[|d|] == '.';
    assert s[|d| + 1..] == rest;
    assert s[..|d|] == d;
  }

  /** A range that starts with `M.` is not a run of digits. */
  lemma NotAllDigits(r: string)
    requires DigitsDot(r)
    ensures !AllDigits(r)
  {
    assert !IsDigit(r[LeadingDigits(r)]);
  }

  /** A pre-release version `M.m.p-...` admits exactly its leading major `M`. */
  lemma PreReleaseMajor(r: string)
    requires PreRelease(r) && Lacks(r, ' ') && Lacks(r, '|')
    ensures forall k :: 3 <= k <= 5 ==> (Supported(Supports(r), k) <==> LeadingMajor(r) == k)
  {
    OneWord(r);
    NotAllDigits(r);
  }

  /** `M.m.p-tag` is a pre-release version with leading major `M`. */
  lemma PreReleaseOf(d1: string, d2: string, d3: string, tag: string)
    requires d1 != [] && AllDigits(d1) && d2 != [] && AllDigits(d2) && d3 != [] && AllDigits(d3)
    ensures var r := d1 + "." + (d2 + "." + (d3 + "-" + tag));
      PreRelease(r) && LeadingMajor(r) == DigitsValue(d1)
  {
    var tail := d3 + "-" + tag;
    var mid := d2 + "." + tail;
    DigitsDotOf(d1, mid);
    DigitsDotOf(d2, tail);
    DigitsDash(d3, tag);
  }

  lemma DigitsDash(d: string, tag: string)
    requires d != [] && AllDigits(d)
    ensures var b := d + "-" + tag; LeadingDigits(b) == |d| && b[|d|] == '-'
  {
    var b := d + "-" + tag;
    assert b == d + ("-" + tag);
    LeadingDigitsStop(d, "-" + tag);
  }

  /** An exact version `M.m.p` admits exactly its leading major `M`. */
  lemma ExactMajor(r: string)
    requires ExactVersion(r)
    ensures forall k :: 3 <= k <= 5 ==> (Supported(Supports(r), k) <==> LeadingMajor(r) == k)
  {
    ExactLacks(r);
    assert r[0] != '=' by { assert IsDigit(r[0]); }
    OneWord(r);
    ExactWord(r);
    LeadingMajorParsed(r);
  }

  /** An exact version is read by the exact-version case. */
  lemma ExactWord(r: string)
    requires ExactVersion(r)
    ensures SingleWord(r) == Exactly(ParseInt(FirstDotPiece(r)))
  {
    ExactGuards(r);
  }

  lemma ExactGuards(r: string)
    requires ExactVersion(r)
    ensures !AllDigits(r) && !Leads(r, '^') && !PreRelease(r) && !Leads(r, '~') && r != "*" && !Wildcard(r)
    ensures !Leads(r, '>') && !Leads(r, '<')
  {
    var n1 := LeadingDigits(r);
    NotAllDigits(r);
    assert IsDigit(r[0]);
    assert !PreRelease(r);
    assert !Wildcard(r) by { assert r[n1 + 1] == AfterDot(r)[0]; }
  }

  /** `parseInt` of the text before the first dot is the leading major. */
  lemma LeadingMajorParsed(r: string)
    requires DigitsDot(r)
    ensures ParseInt(FirstDotPiece(r)) == Some(LeadingMajor(r))
  {
    var n1 := LeadingDigits(r);
    var d := r[..n1];
    assert r == d + r[n1..];
    DigitsThenDot(d, r[n1..]);
    ParseIntDigits(d);
  }

  /** An exact version holds only digits and dots. */
  lemma ExactLacks(r: string)
    requires ExactVersion(r)
    ensures Lacks(r, ' ') && Lacks(r, '|')
  {
    var n1 := LeadingDigits(r);
    var b := AfterDot(r);
    var n2 := LeadingDigits(b);
    var c := AfterDot(b);
    forall i | 0 <= i < |r| ensures IsDigit(r[i]) || r[i] == '.' {
      if n1 < i {
        assert r[i] == b[i - n1 - 1];
        if n2 < i - n1 - 1 { assert b[i - n1 - 1] == c[i - n1 - 1 - n2 - 1]; }
      }
    }
  }

  /** `M.m.p` is an exact version with leading major `M`. */
  lemma ExactOf(d1: string, d2: string, d3: string)
    requires d1 != [] && AllDigits(d1) && d2 != [] && AllDigits(d2) && d3 != [] && AllDigits(d3)
    ensures var r := d1 + "." + d2 + "." + d3;
      ExactVersion(r) && LeadingMajor(r) == DigitsValue(d1)
  {
    var mid := d2 + "." + d3;
    var r := d1 + "." + mid;
    assert r == d1 + "." + d2 + "." + d3;
    DigitsDotOf(d1, mid);
    DigitsDotOf(d2, d3);
    LeadingDigitsAll(d3);
  }

  /** `M.x...` and `M.*...` admit exactly major `M`. */
  lemma WildcardMajor(r: string)
    requires Wildcard(r) && Lacks(r, ' ') && Lacks(r, '|')
    ensures forall k :: 3 <= k <= 5 ==> (Supported(Supports(r), k) <==> LeadingMajor(r) == k)
  {
    var n := LeadingDigits(r);
    assert r[0] != '=' by { assert IsDigit(r[0]); }
    OneWord(r);
    NotAllDigits(r);
    assert !PreRelease(r) by { assert AfterDot(r)[0] == r[n + 1]; }
  }

  /** A word that starts with a comparison operator is none of the earlier forms. */
  lemma BoundGuards(r: string)
    requires r != [] && (r[0] == '<' || r[0] == '>')
    ensures !AllDigits(r) && !Leads(r, '^') && !PreRelease(r) && !Leads(r, '~') && r != "*" && !Wildcard(r)
  {
    assert !AllDigits(r) by { assert !IsDigit(r[0]); }
    assert !PreRelease(r) && !Wildcard(r) by { assert LeadingDigits(r) == 0; }
  }

  lemma AtLeastWord(r: string)
    requires Leads2(r, '>', '=')
    ensures forall k :: 3 <= k <= 5 ==> (Supported(SingleWord(r), k) <==> Le(ParseFloat(r[2..]), k))
  {
    BoundGuards(r);
    var w, v := SingleWord(r), ParseFloat(r[2..]);
    assert w == Support(Le(v, 3), Le(v, 4), Le(v, 5));
    forall k | 3 <= k <= 5 ensures Supported(w, k) <==> Le(v, k) {
      if k == 3 {} else if k == 4 {} else {}
    }
  }

  lemma AboveWord(r: string)
    requires Leads(r, '>') && !Leads2(r, '>', '=')
    ensures forall k :: 3 <= k <= 5 ==> (Supported(SingleWord(r), k) <==> Lt(ParseFloat(r[1..]), k))
  {
    BoundGuards(r);
    var w, v := SingleWord(r), ParseFloat(r[1..]);
    assert w == Support(Lt(v, 3), Lt(v, 4), Lt(v, 5));
    forall k | 3 <= k <= 5 ensures Supported(w, k) <==> Lt(v, k) {
      if k == 3 {} else if k == 4 {} else {}
    }
  }

  lemma AtMostWord(r: string)
    requires Leads2(r, '<', '=')
    ensures forall k :: 3 <= k <= 5 ==> (Supported(SingleWord(r), k) <==> Ge(ParseFloat(r[2..]), k))
  {
    BoundGuards(r);
    var w, v := SingleWord(r), ParseFloat(r[2..]);
    assert w == Support(Ge(v, 3), Ge(v, 4), Ge(v, 5));
    forall k | 3 <= k <= 5 ensures Supported(w, k) <==> Ge(v, k) {
      if k == 3 {} else if k == 4 {} else {}
    }
  }

  lemma BelowWord(r: string)
    requires Leads(r, '<') && !Leads2(r, '<', '=')
    ensures forall k :: 3 <= k <= 5 ==> (Supported(SingleWord(r), k) <==> Gt(ParseFloat(r[1..]), k))
  {
    BoundGuards(r);
    var w, v := SingleWord(r), ParseFloat(r[1..]);
    assert w == Support(Gt(v, 3), Gt(v, 4), Gt(v, 5));
    forall k | 3 <= k <= 5 ensures Supported(w, k) <==> Gt(v, k) {
      if k == 3 {} else if k == 4 {} else {}
    }
  }

  /**
   * A single bound admits major `k` as `parseFloat` of the version after the operator
   * compares with `k`: `>=v` when `v <= k`, `>v` when `v < k`, `<=v` when `v >= k` and
   * `<v` when `v > k`.
   */
  lemma SingleBoundMajors(r: string)
    requires r != [] && (r[0] == '<' || r[0] == '>') && Lacks(r, ' ') && Lacks(r, '|')
    ensures Leads2(r, '>', '=') ==>
      forall k :: 3 <= k <= 5 ==> (Supported(Supports(r), k) <==> Le(ParseFloat(r[2..]), k))
    ensures Leads(r, '>') && !Leads2(r, '>', '=') ==>
      forall k :: 3 <= k <= 5 ==> (Supported(Supports(r), k) <==> Lt(ParseFloat(r[1..]), k))
    ensures Leads2(r, '<', '=') ==>
      forall k :: 3 <= k <= 5 ==> (Supported(Supports(r), k) <==> Ge(ParseFloat(r[2..]), k))
    ensures Leads(r, '<') && !Leads2(r, '<', '=') ==>
      forall k :: 3 <= k <= 5 ==> (Supported(Supports(r), k) <==> Gt(ParseFloat(r[1..]), k))
  {
    OneWord(r);
    if Leads2(r, '>', '=') {
      AtLeastWord(r);
    } else if Leads(r, '>') {
      AboveWord(r);
    } else if Leads2(r, '<', '=') {
      AtMostWord(r);
    } else {
      BelowWord(r);
    }
  }

  /**
   * A space-separated range of bounds without a narrow pre-release reading admits a major
   * exactly when no bound rules it out; a narrow pre-release reading admits just its major.
   */
  lemma MultiBoundMajors(r: string)
    requires Complex(r) && !Contains(r, "||") && !Leads(r, '=') && !Contains(r, " - ")
    ensures var cs := Constraints(Split(r, " "));
      && (cs == [] ==> Supports(r) == NoMajor)
      && (cs != [] && (!AnyHyphen(cs) || NarrowMajor(cs, None).None?) ==>
            forall k :: 3 <= k <= 5 ==> (Supported(Supports(r), k) <==> forall c :: c in cs ==> !Excludes(c, k)))
      && (cs != [] && AnyHyphen(cs) && NarrowMajor(cs, None).Some? ==>
            forall k :: 3 <= k <= 5 ==> (Supported(Supports(r), k) <==> NarrowMajor(cs, None) == Some(k)))
  {
  }

  /** A word none of whose forms applies admits nothing. */
  lemma UnknownRange(r: string)
    requires r != [] && Lacks(r, ' ') && Lacks(r, '|') && Lacks(r, '.')
    requires !IsDigit(r[0]) && r[0] != '=' && r[0] != '^' && r[0] != '~' && r[0] != '<' && r[0] != '>' && r != "*"
    ensures Supports(r) == NoMajor
  {
    OneWord(r);
    NotContains(r, ".x");
    NotContains(r, ".*");
  }
}
