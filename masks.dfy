/**
 * File masks: SetRegex's translation of a glob into an anchored, case-insensitive
 * regular expression, and CheckRegex's include/exclude test. Patterns made only of
 * ordinary characters, "[.]", ".*" and "." are matched here with the semantics of
 * .NET regular expressions; every other pattern, and whether it compiles at all, is
 * left to a RegexEngine given as a parameter.
 */
module Masks {
  import opened Wrappers
  import opened Basics

  /** The mask used when none is given. */
  const DefaultMask: string := "*"

  /**
   * The culture's lower-casing that RegexOptions.IgnoreCase compares characters by.
   * What it does to other characters is the culture's; an ASCII capital compares
   * equal to its small letter, which holds in every culture except Turkish and Azeri,
   * where 'I' lowers to a dotless i.
   */
  type CaseFolding = fold: char -> char | forall c {:trigger fold(ToLowerChar(c))} :: fold(ToLowerChar(c)) == fold(c) witness ToLowerChar

  /**
   * What the surrounding regex library decides: whether a pattern outside the
   * modelled subset compiles, whether it matches a name, and the case folding.
   */
  datatype RegexEngine = RegexEngine(compiles: string -> bool, isMatch: (string, string) -> bool, lower: CaseFolding)

  /** A Regex object built from a pattern with RegexOptions.IgnoreCase. */
  datatype Regex = Regex(pattern: string)

  /** The translation `'^' + mask.Replace(".", "[.]").Replace("*", ".*").Replace("?", ".") + '$'`. */
  function Translate(mask: string): string
  {
    "^" + MaskBody(mask) + "$"
  }

  /** The three Replace calls, applied in the source's order. */
  function MaskBody(mask: string): string
  {
    ReplaceChar(ReplaceChar(ReplaceChar(mask, '.', "[.]"), '*', ".*"), '?', ".")
  }

  /** The elements of the modelled pattern subset. */
  datatype Token = Literal(c: char) | AnyChar | AnyRun

  /** Characters with a meaning in .NET regular expressions outside character classes. */
  predicate IsMetaChar(c: char)
  {
    c == '\\' || c == '*' || c == '+' || c == '?' || c == '|' || c == '{' || c == '['
    || c == '(' || c == ')' || c == '^' || c == '$' || c == '.'
  }

  function Prepend(t: Token, rest: Option<seq<Token>>): Option<seq<Token>>
  {
    match rest
    case None => None
    case Some(ts) => Some([t] + ts)
  }

  /** The first token of a non-empty pattern body and its length, when the body starts with one. */
  function FirstToken(body: string): (r: Option<(Token, nat)>)
    requires body != []
    ensures r.Some? ==> 1 <= r.value.1 <= |body|
  {
    if |body| >= 3 && body[..3] == "[.]" then Some((Literal('.'), 3))
    else if |body| >= 2 && body[..2] == ".*" then Some((AnyRun, 2))
    else if body[0] == '.' then Some((AnyChar, 1))
    else if IsMetaChar(body[0]) then None
    else Some((Literal(body[0]), 1))
  }

  /** The tokens of a pattern body in the subset: "[.]" and literal characters, "." and ".*". */
  function Tokenize(body: string): Option<seq<Token>>
    decreases |body|
  {
    if body == [] then Some([])
    else match FirstToken(body)
      case None => None
      case Some((t, n)) => Prepend(t, Tokenize(body[n..]))
  }

  /** The tokens of a pattern `^body$` whose body lies in the subset. */
  function PatternTokens(pattern: string): Option<seq<Token>>
  {
    if |pattern| >= 2 && pattern[0] == '^' && pattern[|pattern| - 1] == '$' then Tokenize(pattern[1..|pattern| - 1])
    else None
  }

  /** `new Regex(pattern, RegexOptions.IgnoreCase)` returns rather than throwing an ArgumentException. */
  predicate Compiles(e: RegexEngine, pattern: string)
  {
    PatternTokens(pattern).Some? || e.compiles(pattern)
  }

  /** Unanchored-at-the-end matching of tokens against the whole of s: "." never matches a line feed. */
  predicate MatchTokens(e: RegexEngine, ts: seq<Token>, s: string)
    decreases |s|, |ts|
  {
    if ts == [] then s == []
    else match ts[0]
      case AnyRun => MatchTokens(e, ts[1..], s) || (s != [] && s[0] != '\n' && MatchTokens(e, ts, s[1..]))
      case AnyChar => s != [] && s[0] != '\n' && MatchTokens(e, ts[1..], s[1..])
      case Literal(c) => s != [] && e.lower(c) == e.lower(s[0]) && MatchTokens(e, ts[1..], s[1..])
  }

  /** `^...$` without RegexOptions.Multiline: '$' matches at the very end or before a final line feed. */
  predicate AnchoredMatch(e: RegexEngine, ts: seq<Token>, s: string)
  {
    MatchTokens(e, ts, s) || (|s| > 0 && s[|s| - 1] == '\n' && MatchTokens(e, ts, s[..|s| - 1]))
  }

  /** Regex.IsMatch. */
  predicate IsMatch(e: RegexEngine, rx: Regex, name: string)
  {
    match PatternTokens(rx.pattern)
    case Some(ts) => AnchoredMatch(e, ts, name)
    case None => e.isMatch(rx.pattern, name)
  }

  /** The includeRegex and excludeRegex fields; None is a field still null. */
  datatype Filter = Filter(includeRegex: Option<Regex>, excludeRegex: Option<Regex>)

  /** The include mask SetRegex uses: an empty or null mask becomes "*". */
  function IncludeMask(fileIncludeMask: Option<string>): (m: string)
    ensures IsNullOrEmpty(fileIncludeMask) ==> m == DefaultMask
    ensures !IsNullOrEmpty(fileIncludeMask) ==> m == fileIncludeMask.value
  {
    if IsNullOrEmpty(fileIncludeMask) then DefaultMask else fileIncludeMask.value
  }

  /**
   * SetRegex: the fields afterwards, and whether it returned (false: a Regex
   * constructor threw an ArgumentException). The include regex is assigned first;
   * the exclude regex is assigned only for a non-empty exclude mask, and otherwise
   * keeps what it held.
   */
  function SetRegex(e: RegexEngine, fileIncludeMask: Option<string>, fileExcludeMask: Option<string>, f: Filter): (r: (Filter, bool))
    ensures r.1 <==>
      && Compiles(e, Translate(IncludeMask(fileIncludeMask)))
      && (IsNullOrEmpty(fileExcludeMask) || Compiles(e, Translate(fileExcludeMask.value)))
    ensures Compiles(e, Translate(IncludeMask(fileIncludeMask))) ==> r.0.includeRegex == Some(Regex(Translate(IncludeMask(fileIncludeMask))))
    ensures !Compiles(e, Translate(IncludeMask(fileIncludeMask))) ==> r.0 == f
    ensures r.1 && !IsNullOrEmpty(fileExcludeMask) ==> r.0.excludeRegex == Some(Regex(Translate(fileExcludeMask.value)))
    ensures IsNullOrEmpty(fileExcludeMask) || !r.1 ==> r.0.excludeRegex == f.excludeRegex
  {
    var includePattern := Translate(IncludeMask(fileIncludeMask));
    if !Compiles(e, includePattern) then (f, false)
    else
      var f1 := f.(includeRegex := Some(Regex(includePattern)));
      if IsNullOrEmpty(fileExcludeMask) then (f1, true)
      else
        var excludePattern := Translate(fileExcludeMask.value);
        if !Compiles(e, excludePattern) then (f1, false)
        else (f1.(excludeRegex := Some(Regex(excludePattern))), true)
  }

  /** CheckRegex: not excluded by a set exclude regex, and included by a set include regex. */
  predicate CheckRegex(e: RegexEngine, f: Filter, name: string)
  {
    && !(f.excludeRegex.Some? && IsMatch(e, f.excludeRegex.value, name))
    && !(f.includeRegex.Some? && !IsMatch(e, f.includeRegex.value, name))
  }

  /** SetRegex with the masks it was last given leaves the fields, and its verdict, as they are. */
  lemma SetRegexIdempotent(e: RegexEngine, fileIncludeMask: Option<string>, fileExcludeMask: Option<string>, f: Filter)
    ensures SetRegex(e, fileIncludeMask, fileExcludeMask, SetRegex(e, fileIncludeMask, fileExcludeMask, f).0)
         == SetRegex(e, fileIncludeMask, fileExcludeMask, f)
  {
  }

  // ----- Plain masks and their glob meaning -----

  /** A mask free of regex syntax other than the wildcards the translation rewrites. */
  predicate IsPlainMask(mask: string)
  {
    forall i :: 0 <= i < |mask| ==> mask[i] == '*' || mask[i] == '?' || mask[i] == '.' || !IsMetaChar(mask[i])
  }

  /**
   * The glob meaning of a mask: '*' matches any run of characters, '?' any one
   * character, and every other character itself, ignoring case as the engine does.
   */
  predicate GlobMatch(e: RegexEngine, mask: string, s: string)
    decreases |s|, |mask|
  {
    if mask == [] then s == []
    else if mask[0] == '*' then GlobMatch(e, mask[1..], s) || (s != [] && GlobMatch(e, mask, s[1..]))
    else if mask[0] == '?' then s != [] && GlobMatch(e, mask[1..], s[1..])
    else s != [] && e.lower(mask[0]) == e.lower(s[0]) && GlobMatch(e, mask[1..], s[1..])
  }

  /** The token each mask character becomes. */
  function MaskToken(c: char): Token
  {
    if c == '*' then AnyRun else if c == '?' then AnyChar else Literal(c)
  }

  function MaskTokens(mask: string): (ts: seq<Token>)
    ensures |ts| == |mask|
    ensures forall i :: 0 <= i < |mask| ==> ts[i] == MaskToken(mask[i])
  {
    seq(|mask|, i requires 0 <= i < |mask| => MaskToken(mask[i]))
  }

  /** The text one mask character becomes under the three replacements. */
  function Piece(c: char): string
  {
    if c == '.' then "[.]" else if c == '*' then ".*" else if c == '?' then "." else [c]
  }

  lemma MaskBodyOfChar(c: char)
    ensures MaskBody([c]) == Piece(c)
  {
    if c == '.' {
      assert ReplaceChar([c], '.', "[.]") == "[.]";
      assert ReplaceChar("[.]", '*', ".*") == "[.]";
    } else if c == '*' {
      assert ReplaceChar([c], '.', "[.]") == "*";
      assert ReplaceChar("*", '*', ".*") == ".*";
      assert ReplaceChar(".*", '?', ".") == ".*";
    } else if c == '?' {
      assert ReplaceChar([c], '.', "[.]") == "?";
      assert ReplaceChar("?", '*', ".*") == "?";
    } else {
      assert ReplaceChar([c], '.', "[.]") == [c];
      assert ReplaceChar([c], '*', ".*") == [c];
    }
  }

  /** The translation works character by character. */
  lemma MaskBodyCons(mask: string)
    requires mask != []
    ensures MaskBody(mask) == Piece(mask[0]) + MaskBody(mask[1..])
  {
    var head, tail := [mask[0]], mask[1..];
    assert mask == head + tail;
    ReplaceCharConcat(head, tail, '.', "[.]");
    var a1, b1 := ReplaceChar(head, '.', "[.]"), ReplaceChar(tail, '.', "[.]");
    ReplaceCharConcat(a1, b1, '*', ".*");
    var a2, b2 := ReplaceChar(a1, '*', ".*"), ReplaceChar(b1, '*', ".*");
    ReplaceCharConcat(a2, b2, '?', ".");
    MaskBodyOfChar(mask[0]);
  }

  /** No bare '*' survives the translation. */
  lemma MaskBodyNoLeadingStar(mask: string)
    requires IsPlainMask(mask)
    ensures MaskBody(mask) == [] || MaskBody(mask)[0] != '*'
  {
    if mask != [] {
      MaskBodyCons(mask);
    }
  }

  /** The piece of one mask character is read back as that character's token. */
  lemma FirstTokenOfPiece(c: char, rest: string)
    requires c == '*' || c == '?' || c == '.' || !IsMetaChar(c)
    requires rest == [] || rest[0] != '*'
    ensures FirstToken(Piece(c) + rest) == Some((MaskToken(c), |Piece(c)|))
  {
    var body := Piece(c) + rest;
    if c == '.' {
      assert body[..3] == "[.]";
    } else if c == '*' {
      assert body[0] == '.' && body[..2] == ".*";
    } else if c == '?' {
      assert body[0] == '.';
      assert !(|body| >= 2 && body[..2] == ".*") by {
        if |body| >= 2 { assert body[1] == rest[0]; }
      }
    } else {
      assert body[0] == c;
    }
  }

  lemma TokenizePiece(c: char, rest: string)
    requires c == '*' || c == '?' || c == '.' || !IsMetaChar(c)
    requires rest == [] || rest[0] != '*'
    ensures Tokenize(Piece(c) + rest) == Prepend(MaskToken(c), Tokenize(rest))
  {
    FirstTokenOfPiece(c, rest);
    assert (Piece(c) + rest)[|Piece(c)|..] == rest;
  }

  lemma PlainMaskTail(mask: string)
    requires IsPlainMask(mask) && mask != []
    ensures IsPlainMask(mask[1..])
    ensures mask[0] == '*' || mask[0] == '?' || mask[0] == '.' || !IsMetaChar(mask[0])
  {
    forall i | 0 <= i < |mask[1..]|
      ensures mask[1..][i] == '*' || mask[1..][i] == '?' || mask[1..][i] == '.' || !IsMetaChar(mask[1..][i])
    {
      assert mask[1..][i] == mask[i + 1];
    }
  }

  lemma MaskTokensCons(mask: string)
    requires mask != []
    ensures MaskTokens(mask) == [MaskToken(mask[0])] + MaskTokens(mask[1..])
  {
  }

  /** A plain mask translates into the subset, one token per mask character. */
  lemma {:induction false} TokenizePlainMask(mask: string)
    requires IsPlainMask(mask)
    ensures Tokenize(MaskBody(mask)) == Some(MaskTokens(mask))
    decreases |mask|
  {
    if mask == [] {
      assert MaskBody(mask) == [];
    } else {
      PlainMaskTail(mask);
      MaskBodyCons(mask);
      MaskBodyNoLeadingStar(mask[1..]);
      TokenizePlainMask(mask[1..]);
      TokenizePiece(mask[0], MaskBody(mask[1..]));
      MaskTokensCons(mask);
    }
  }

  /** The pattern of a plain mask lies in the subset. */
  lemma PlainMaskPatternTokens(mask: string)
    requires IsPlainMask(mask)
    ensures PatternTokens(Translate(mask)) == Some(MaskTokens(mask))
  {
    var p := Translate(mask);
    assert p[1..|p| - 1] == MaskBody(mask);
    TokenizePlainMask(mask);
  }

  /** A plain mask never makes the Regex constructor throw. */
  lemma PlainMaskCompiles(e: RegexEngine, mask: string)
    requires IsPlainMask(mask)
    ensures Compiles(e, Translate(mask))
  {
    PlainMaskPatternTokens(mask);
  }

  /** On names without line feeds the tokens of a mask match exactly as the glob does. */
  lemma {:induction false} MaskTokensMatchGlob(e: RegexEngine, mask: string, s: string)
    requires '\n' !in s
    ensures MatchTokens(e, MaskTokens(mask), s) == GlobMatch(e, mask, s)
    decreases |s|, |mask|
  {
    var ts := MaskTokens(mask);
    if mask != [] {
      assert ts[1..] == MaskTokens(mask[1..]);
      if s != [] {
        assert '\n' !in s[1..] by {
          forall i | 0 <= i < |s[1..]| ensures s[1..][i] != '\n' { assert s[1..][i] == s[i + 1]; }
        }
        MaskTokensMatchGlob(e, mask, s[1..]);
        MaskTokensMatchGlob(e, mask[1..], s[1..]);
      }
      MaskTokensMatchGlob(e, mask[1..], s);
    }
  }

  /**
   * For a plain mask and a name without line feeds, the compiled regex matches
   * exactly when the glob does: '*' is any run, '?' one character, '.' itself,
   * case is ignored and the whole name must match.
   */
  lemma PlainMaskMatchesGlob(e: RegexEngine, mask: string, name: string)
    requires IsPlainMask(mask) && '\n' !in name
    ensures IsMatch(e, Regex(Translate(mask)), name) <==> GlobMatch(e, mask, name)
  {
    PlainMaskPatternTokens(mask);
    MaskTokensMatchGlob(e, mask, name);
  }

  /** "*" lets every name without line feeds through. */
  lemma {:induction false} StarMatchesAll(e: RegexEngine, name: string)
    ensures GlobMatch(e, DefaultMask, name)
    decreases |name|
  {
    if name != [] {
      StarMatchesAll(e, name[1..]);
    }
  }

  /** The '$' anchor also lets a final line feed through: a plain mask matching a name matches it followed by "\n". */
  lemma TrailingLineFeedMatches(e: RegexEngine, mask: string, name: string)
    requires IsPlainMask(mask) && '\n' !in name && GlobMatch(e, mask, name)
    ensures IsMatch(e, Regex(Translate(mask)), name + "\n")
  {
    PlainMaskPatternTokens(mask);
    MaskTokensMatchGlob(e, mask, name);
    assert (name + "\n")[..|name|] == name;
  }

  /** Changing the ASCII case of a name never changes whether a glob matches it. */
  lemma {:induction false} GlobIgnoresAsciiCase(e: RegexEngine, mask: string, s: string)
    ensures GlobMatch(e, mask, ToLower(s)) == GlobMatch(e, mask, s)
    decreases |s|, |mask|
  {
    var t := ToLower(s);
    if mask != [] {
      GlobIgnoresAsciiCase(e, mask[1..], s);
      if s != [] {
        assert t[1..] == ToLower(s[1..]);
        assert e.lower(t[0]) == e.lower(s[0]);
        GlobIgnoresAsciiCase(e, mask, s[1..]);
        GlobIgnoresAsciiCase(e, mask[1..], s[1..]);
      }
    }
  }

  /** Lower-casing never introduces a line feed. */
  lemma LowerKeepsLineFeedsOut(name: string)
    requires '\n' !in name
    ensures '\n' !in ToLower(name)
  {
    forall i | 0 <= i < |name| ensures ToLower(name)[i] != '\n' {
      assert name[i] != '\n';
    }
  }

  /** Every mask matches itself as a glob: '*' and '?' each match their own character. */
  lemma {:induction false} GlobMatchesItself(e: RegexEngine, mask: string)
    ensures GlobMatch(e, mask, mask)
    decreases |mask|
  {
    if mask != [] {
      GlobMatchesItself(e, mask[1..]);
      if mask[0] == '*' {
        assert GlobMatch(e, mask, mask[1..]);
      }
    }
  }

  /** A leading '*' lets any prefix through. */
  lemma {:induction false} StarTakesPrefix(e: RegexEngine, mask: string, prefix: string, s: string)
    requires GlobMatch(e, mask, s)
    ensures GlobMatch(e, ['*'] + mask, prefix + s)
    decreases |prefix|
  {
    var star := ['*'] + mask;
    assert star != [] && star[0] == '*' && star[1..] == mask;
    var t := prefix + s;
    if prefix != [] {
      StarTakesPrefix(e, mask, prefix[1..], s);
      assert t[1..] == prefix[1..] + s;
      assert t != [] && GlobMatch(e, star, t[1..]);
    } else {
      assert t == s;
      assert GlobMatch(e, star[1..], t);
    }
  }

  /**
   * After a SetRegex that returned, a name without line feeds passes CheckRegex
   * exactly when it matches the include mask as a glob and is not excluded: by the
   * new exclude mask as a glob when one was given, by the previous exclude regex otherwise.
   */
  lemma CheckRegexAfterSetRegex(e: RegexEngine, includeMask: Option<string>, excludeMask: Option<string>, f: Filter, name: string)
    requires IsPlainMask(IncludeMask(includeMask))
    requires !IsNullOrEmpty(excludeMask) ==> IsPlainMask(excludeMask.value)
    requires '\n' !in name
    ensures SetRegex(e, includeMask, excludeMask, f).1
    ensures CheckRegex(e, SetRegex(e, includeMask, excludeMask, f).0, name) <==>
      && GlobMatch(e, IncludeMask(includeMask), name)
      && (if IsNullOrEmpty(excludeMask) then !(f.excludeRegex.Some? && IsMatch(e, f.excludeRegex.value, name))
          else !GlobMatch(e, excludeMask.value, name))
  {
    PlainMaskCompiles(e, IncludeMask(includeMask));
    PlainMaskMatchesGlob(e, IncludeMask(includeMask), name);
    if !IsNullOrEmpty(excludeMask) {
      PlainMaskCompiles(e, excludeMask.value);
      PlainMaskMatchesGlob(e, excludeMask.value, name);
    }
  }

  /**
   * After a SetRegex that returned, CheckRegex ignores the ASCII case of a name without
   * line feeds, unless an exclude regex from an earlier call outside the glob subset is
   * still in force.
   */
  lemma CheckRegexIgnoresAsciiCase(e: RegexEngine, includeMask: Option<string>, excludeMask: Option<string>, f: Filter, name: string)
    requires IsPlainMask(IncludeMask(includeMask))
    requires !IsNullOrEmpty(excludeMask) ==> IsPlainMask(excludeMask.value)
    requires IsNullOrEmpty(excludeMask) ==> f.excludeRegex.None?
    requires '\n' !in name
    ensures CheckRegex(e, SetRegex(e, includeMask, excludeMask, f).0, ToLower(name))
        == CheckRegex(e, SetRegex(e, includeMask, excludeMask, f).0, name)
  {
    LowerKeepsLineFeedsOut(name);
    CheckRegexAfterSetRegex(e, includeMask, excludeMask, f, name);
    CheckRegexAfterSetRegex(e, includeMask, excludeMask, f, ToLower(name));
    GlobIgnoresAsciiCase(e, IncludeMask(includeMask), name);
    if !IsNullOrEmpty(excludeMask) {
      GlobIgnoresAsciiCase(e, excludeMask.value, name);
    }
  }

  /** The mask "*.xml" lets "A.XML" through: the include mask ignores case. */
  lemma XmlMaskPassesUpperCase(e: RegexEngine, f: Filter)
    requires f.excludeRegex.None?
    ensures CheckRegex(e, SetRegex(e, Some("*.xml"), None, f).0, "A.XML")
  {
    XmlMaskIsPlain();
    XmlMaskMatchesLowerCase(e);
    LowerXmlName();
    CheckRegexAfterSetRegex(e, Some("*.xml"), None, f, "a.xml");
    CheckRegexIgnoresAsciiCase(e, Some("*.xml"), None, f, "A.XML");
  }

  lemma XmlMaskIsPlain()
    ensures IsPlainMask("*.xml")
  {
    var mask := "*.xml";
    forall i | 0 <= i < |mask| ensures mask[i] == '*' || mask[i] == '?' || mask[i] == '.' || !IsMetaChar(mask[i]) {
    }
  }

  lemma XmlMaskMatchesLowerCase(e: RegexEngine)
    ensures GlobMatch(e, "*.xml", "a.xml")
  {
    GlobMatchesItself(e, ".xml");
    StarTakesPrefix(e, ".xml", "a", ".xml");
    assert ['*'] + ".xml" == "*.xml" && "a" + ".xml" == "a.xml";
  }

  lemma LowerXmlName()
    ensures ToLower("A.XML") == "a.xml"
  {
  }

  /** With the default mask and no exclude regex, every name without line feeds passes. */
  lemma DefaultFilterPassesAll(e: RegexEngine, f: Filter, name: string)
    requires f.excludeRegex.None? && '\n' !in name
    ensures CheckRegex(e, SetRegex(e, None, None, f).0, name)
  {
    assert IsPlainMask(DefaultMask);
    StarMatchesAll(e, name);
    CheckRegexAfterSetRegex(e, None, None, f, name);
  }
}
