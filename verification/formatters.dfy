/** The label formatters: `formatEnum` of `src/utils/formatters.ts`, which
    turns a camel-case or Pascal-case identifier into words, and the two
    total maps of `src/utils/formatEnum.ts`. Upper-casing is ASCII only. */
module Formatters {
  import opened Text

  /** The number of ASCII capitals in `s`. */
  function CountUpper(s: string): nat {
    if s == [] then 0 else (if IsUpper(s[0]) then 1 else 0) + CountUpper(s[1..])
  }

  /** `replace(/([A-Z])/g, ' $1')`: a space before every ASCII capital. */
  function SpaceBeforeCapitals(s: string): (r: string)
    ensures |r| == |s| + CountUpper(s)
    ensures s != [] && !IsUpper(s[0]) ==> r[0] == s[0]
    ensures s != [] && IsUpper(s[0]) ==> r[0] == ' ' && r[1] == s[0]
    ensures s != [] ==> r[|r| - 1] == s[|s| - 1]
  {
    if s == [] then []
    else if IsUpper(s[0]) then [' ', s[0]] + SpaceBeforeCapitals(s[1..])
    else [s[0]] + SpaceBeforeCapitals(s[1..])
  }

  /** `replace(/^./, str => str.toUpperCase())` on a trimmed string: its
      first character (never a line terminator) is upper-cased. */
  function CapitalizeFirst(s: string): (r: string)
    ensures |r| == |s|
    ensures s != [] ==> r[0] == UpperChar(s[0]) && r[1..] == s[1..]
  {
    if s == [] then [] else [UpperChar(s[0])] + s[1..]
  }

  /** `formatEnum`: words without white space at either end, empty exactly
      for an input made only of white space. */
  function FormatEnum(s: string): (r: string)
    ensures r == [] || (!IsJsSpace(r[0]) && !IsJsSpace(r[|r| - 1]))
    ensures r == [] <==> AllJsSpace(s)
  {
    var r := CapitalizeFirst(Trim(SpaceBeforeCapitals(s)));
    FormattedEnds(s, r);
    FormattedBlank(s, r);
    r
  }

  /** The result has no white space at its ends. */
  lemma FormattedEnds(s: string, r: string)
    requires r == CapitalizeFirst(Trim(SpaceBeforeCapitals(s)))
    ensures r == [] || (!IsJsSpace(r[0]) && !IsJsSpace(r[|r| - 1]))
  {
    CapitalizeKeepsEnds(Trim(SpaceBeforeCapitals(s)));
  }

  /** The result is empty exactly when the input is only white space. */
  lemma FormattedBlank(s: string, r: string)
    requires r == CapitalizeFirst(Trim(SpaceBeforeCapitals(s)))
    ensures r == [] <==> AllJsSpace(s)
  {
    var x := SpaceBeforeCapitals(s);
    var t := Trim(x);
    assert |r| == |t|;
    assert (r == []) == (t == []);
    TrimEmptyIffBlank(x);
    assert (t == []) == AllJsSpace(x);
    SpacedBlank(s);
    assert AllJsSpace(x) == AllJsSpace(s);
  }

  /** Upper-casing the first character of a string without white space at
      its ends leaves none there. */
  lemma CapitalizeKeepsEnds(t: string)
    requires t == [] || (!IsJsSpace(t[0]) && !IsJsSpace(t[|t| - 1]))
    ensures var r := CapitalizeFirst(t);
      r == [] || (!IsJsSpace(r[0]) && !IsJsSpace(r[|r| - 1]))
  {
    if t != [] {
      assert !IsJsSpace(UpperChar(t[0]));
    }
  }

  /** Inserting spaces before capitals keeps a string all white space exactly
      when it was. */
  lemma {:induction false} SpacedBlank(s: string)
    ensures AllJsSpace(SpaceBeforeCapitals(s)) <==> AllJsSpace(s)
  {
    if s != [] {
      var x := SpaceBeforeCapitals(s);
      var rest := SpaceBeforeCapitals(s[1..]);
      SpacedBlank(s[1..]);
      var k := |x| - |rest|;
      assert x[k..] == rest;
      assert (forall i :: 0 <= i < |s| ==> IsJsSpace(s[i]))
         <==> IsJsSpace(s[0]) && (forall i :: 0 <= i < |s[1..]| ==> IsJsSpace(s[1..][i])) by {
        forall i | 1 <= i < |s| ensures s[i] == s[1..][i - 1] { }
      }
      assert (forall i :: 0 <= i < |x| ==> IsJsSpace(x[i]))
         <==> IsJsSpace(s[0]) && (forall i :: 0 <= i < |rest| ==> IsJsSpace(rest[i])) by {
        forall i | k <= i < |x| ensures x[i] == rest[i - k] { }
        if IsUpper(s[0]) {
          assert x[0] == ' ' && x[1] == s[0] && k == 2;
        } else {
          assert x[0] == s[0] && k == 1;
        }
      }
    }
  }

  /** `formatGender`: three known values and a fallback. */
  function FormatGender(g: string): (r: string)
    ensures r in {"Masculino", "Feminino", "Outro", "Desconhecido"}
    ensures r == "Desconhecido" <==> g !in {"Male", "Female", "Other"}
    ensures g == "Male" ==> r == "Masculino"
    ensures g == "Female" ==> r == "Feminino"
    ensures g == "Other" ==> r == "Outro"
  {
    match g
    case "Male" => "Masculino"
    case "Female" => "Feminino"
    case "Other" => "Outro"
    case _ => "Desconhecido"
  }

  /** `formatPosition`: two known values and a fallback. */
  function FormatPosition(p: string): (r: string)
    ensures r in {"Gerente", "Desenvolvedor", "Outro"}
    ensures r == "Outro" <==> p !in {"Manager", "Developer"}
    ensures p == "Manager" ==> r == "Gerente"
    ensures p == "Developer" ==> r == "Desenvolvedor"
  {
    match p
    case "Manager" => "Gerente"
    case "Developer" => "Desenvolvedor"
    case _ => "Outro"
  }

  // ---------------------------------------------------------------------------
  // Properties of formatEnum

  predicate IsLetter(c: char) { IsUpper(c) || IsLower(c) }

  predicate AllLetters(s: string) { forall i :: 0 <= i < |s| ==> IsLetter(s[i]) }

  /** `s` with its spaces removed. */
  function Unspaced(s: string): (r: string)
    ensures |r| <= |s|
  {
    if s == [] then [] else if s[0] == ' ' then Unspaced(s[1..]) else [s[0]] + Unspaced(s[1..])
  }

  /** Removing the inserted spaces gives back a letters-only input. */
  lemma {:induction false} SpacesOnlyInserted(s: string)
    requires AllLetters(s)
    ensures Unspaced(SpaceBeforeCapitals(s)) == s
  {
    if s != [] {
      var rest := SpaceBeforeCapitals(s[1..]);
      assert AllLetters(s[1..]) by {
        forall i | 0 <= i < |s| - 1 ensures IsLetter(s[1..][i]) {
          assert s[1..][i] == s[i + 1];
        }
      }
      SpacesOnlyInserted(s[1..]);
      assert s[0] != ' ';
      var unspaced := [s[0]] + Unspaced(rest);
      if IsUpper(s[0]) {
        assert ([' ', s[0]] + rest)[1..] == [s[0]] + rest;
        assert Unspaced([' ', s[0]] + rest) == Unspaced([s[0]] + rest);
      }
      assert ([s[0]] + rest)[1..] == rest;
      assert Unspaced([s[0]] + rest) == unspaced;
      assert unspaced == [s[0]] + s[1..] == s;
    }
  }

  /** `trim` of a string with non-space ends, preceded by one space, drops only that space. */
  lemma TrimOneLeadingSpace(t: string)
    requires t != [] && !IsJsSpace(t[0]) && !IsJsSpace(t[|t| - 1])
    ensures Trim([' '] + t) == t
  {
    assert ([' '] + t)[1..] == t;
  }

  lemma LetterIsNotSpace(c: char)
    requires IsLetter(c)
    ensures !IsJsSpace(c)
  {
  }

  /** For letters-only input, `trim` removes exactly the space inserted
      before an initial capital. */
  lemma TrimmedSpaced(s: string)
    requires s != [] && AllLetters(s)
    ensures Trim(SpaceBeforeCapitals(s)) ==
      if IsUpper(s[0]) then SpaceBeforeCapitals(s)[1..] else SpaceBeforeCapitals(s)
  {
    var x := SpaceBeforeCapitals(s);
    assert x[|x| - 1] == s[|s| - 1];
    LetterIsNotSpace(s[|s| - 1]);
    LetterIsNotSpace(s[0]);
    if IsUpper(s[0]) {
      var t := x[1..];
      assert t[0] == s[0];
      assert t[|t| - 1] == x[|x| - 1];
      assert x == [' '] + t;
      TrimOneLeadingSpace(t);
    } else {
      assert x[0] == s[0];
      TrimIdentity(x);
    }
  }

  /** For letters-only input the result has one extra character per capital
      after the first position, and reads as the input with its first letter
      upper-cased once the spaces are removed. */
  lemma FormatEnumOfLetters(s: string)
    requires s != [] && AllLetters(s)
    ensures |FormatEnum(s)| == |s| + CountUpper(s[1..])
    ensures Unspaced(FormatEnum(s)) == CapitalizeFirst(s)
  {
    var x := SpaceBeforeCapitals(s);
    var t := Trim(x);
    TrimmedSpaced(s);
    SpacesOnlyInserted(s);
    assert t != [] && t[0] == s[0];
    assert Unspaced(t) == s by {
      if IsUpper(s[0]) {
        assert x == [' '] + t;
        assert Unspaced(x) == Unspaced(t);
      }
    }
    var r := FormatEnum(s);
    assert r == [UpperChar(s[0])] + t[1..];
    assert Unspaced(t) == [s[0]] + Unspaced(t[1..]);
    assert s[1..] == Unspaced(t[1..]);
    assert UpperChar(s[0]) != ' ';
    assert r[1..] == t[1..];
  }

  /** The spacing of a concatenation is the concatenation of the spacings. */
  lemma {:induction false} SpacedConcat(a: string, b: string)
    ensures SpaceBeforeCapitals(a + b) == SpaceBeforeCapitals(a) + SpaceBeforeCapitals(b)
  {
    if a != [] {
      assert (a + b)[0] == a[0] && (a + b)[1..] == a[1..] + b;
      SpacedConcat(a[1..], b);
    } else {
      assert a + b == b;
    }
  }

  /** Without capitals nothing is inserted. */
  lemma {:induction false} SpacedLower(s: string)
    requires forall i :: 0 <= i < |s| ==> IsLower(s[i])
    ensures SpaceBeforeCapitals(s) == s
  {
    if s != [] {
      SpacedLower(s[1..]);
    }
  }

  /** A capitalised word gets one space in front. */
  lemma SpacedWord(c: char, rest: string)
    requires IsUpper(c) && forall i :: 0 <= i < |rest| ==> IsLower(rest[i])
    ensures SpaceBeforeCapitals([c] + rest) == [' ', c] + rest
  {
    assert ([c] + rest)[1..] == rest;
    SpacedLower(rest);
  }

  /** The result for a letters-only input whose spacing, less the space in
      front of an initial capital, is `x`: `x` with its first letter upper-cased. */
  lemma FormattedFromSpacing(s: string, x: string, r: string)
    requires s != [] && AllLetters(s)
    requires SpaceBeforeCapitals(s) == (if IsUpper(s[0]) then [' '] + x else x)
    requires r == [UpperChar(x[0])] + x[1..]
    ensures FormatEnum(s) == r
  {
    TrimmedSpaced(s);
    assert Trim(SpaceBeforeCapitals(s)) == x by {
      if IsUpper(s[0]) {
        assert ([' '] + x)[1..] == x;
      }
    }
  }

  // ---------------------------------------------------------------------------
  // Properties of the two maps

  /** Each known value has its own label, and `'Analyst'` falls back to `'Outro'`. */
  lemma LabelsDistinguishKnownValues(a: string, b: string)
    ensures (a in {"Male", "Female", "Other"} && b in {"Male", "Female", "Other"}
             && FormatGender(a) == FormatGender(b)) ==> a == b
    ensures (a in {"Manager", "Developer"} && b in {"Manager", "Developer"}
             && FormatPosition(a) == FormatPosition(b)) ==> a == b
    ensures FormatPosition("Analyst") == "Outro"
  {
  }
}

/** The documented examples of `formatEnum` (`src/utils/formatters.test.ts`),
    derived from the general lemmas of `Formatters`. Each input is a
    parameter fixed by the precondition. */
module FormatterExamples {
  import opened Formatters

  /** An all-lower-case identifier is only capitalised. */
  lemma LowerCaseExample(s: string)
    requires s == "manager"
    ensures FormatEnum(s) == "Manager"
  {
    SpacedLower(s);
    FormattedFromSpacing(s, s, "Manager");
  }

  /** A single capitalised word is left as it is. */
  lemma OneWordExample(s: string)
    requires s == "Developer"
    ensures FormatEnum(s) == "Developer"
  {
    OneWordSpacing(s);
    FormattedFromSpacing(s, s, s);
  }

  lemma OneWordSpacing(s: string)
    requires s == "Developer"
    ensures SpaceBeforeCapitals(s) == [' '] + s
  {
    var rest := s[1..];
    assert rest == "eveloper";
    assert s == [s[0]] + rest;
    SpacedWord(s[0], rest);
  }

  /** A camel-case identifier is split into capitalised words. */
  lemma CamelCaseExample(s: string)
    requires s == "juniorDev"
    ensures FormatEnum(s) == "Junior Dev"
  {
    CamelCaseSpacing(s);
    FormattedFromSpacing(s, "junior Dev", "Junior Dev");
  }

  lemma CamelCaseSpacing(s: string)
    requires s == "juniorDev"
    ensures SpaceBeforeCapitals(s) == "junior Dev"
  {
    var a, b := s[..6], s[6..];
    assert a == "junior" && b == "Dev";
    assert SpaceBeforeCapitals(a) == "junior" by { SpacedLower(a); }
    assert SpaceBeforeCapitals(b) == " Dev" by { SpacedWord('D', b[1..]); assert b == ['D'] + b[1..]; }
    SpacedConcat(a, b);
    assert s == a + b;
  }

  /** A Pascal-case identifier is split without a leading space. */
  lemma PascalCaseExample(s: string)
    requires s == "SeniorDeveloper"
    ensures FormatEnum(s) == "Senior Developer"
  {
    PascalCaseSpacing(s);
    FormattedFromSpacing(s, "Senior Developer", "Senior Developer");
  }

  lemma PascalCaseSpacing(s: string)
    requires s == "SeniorDeveloper"
    ensures SpaceBeforeCapitals(s) == " Senior Developer"
  {
    var a, b := s[..6], s[6..];
    assert a == "Senior" && b == "Developer";
    SeniorSpacing(a);
    assert SpaceBeforeCapitals(b) == " Developer" by { OneWordSpacing(b); }
    SpacedConcat(a, b);
    assert s == a + b;
  }

  lemma SeniorSpacing(s: string)
    requires s == "Senior"
    ensures SpaceBeforeCapitals(s) == " Senior"
  {
    SpacedWord('S', "enior");
    assert s == ['S'] + "enior";
  }
}
