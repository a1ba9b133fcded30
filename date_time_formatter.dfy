/** HeartRate/DateTimeFormatter.cs: the `%date%` / `%date:<format>%` token
    grammar of file-name templates, the sanitising of substituted text for a
    file path, and the choice of date rendering. The date renderings
    themselves and the platform's invalid file-name characters are inputs. */
module DateTimeFormatter {
  import opened Wrappers
  import opened Text
  import opened HeartRateData

  const DefaultFilename: string := "yyyy-MM-dd hh-mm tt"
  const DefaultColumn: string := ""

  /** ToUpperInvariant on one character. Only ASCII letters are mapped; no
      other character upper-cases to an ASCII letter that the rule below
      compares against ('O' and 'A'). */
  function UpperInvariant(c: char): char {
    if 'a' <= c <= 'z' then (c as int - 32) as char else c
  }

  function ToUpperInvariant(s: string): (r: string)
    ensures |r| == |s|
    ensures forall i :: 0 <= i < |s| ==> r[i] == UpperInvariant(s[i])
  {
    if s == [] then [] else [UpperInvariant(s[0])] + ToUpperInvariant(s[1..])
  }

  /** "OA" in any letter case. */
  predicate IsOA(s: string) {
    |s| == 2 && (s[0] == 'o' || s[0] == 'O') && (s[1] == 'a' || s[1] == 'A')
  }

  lemma UpperIsOA(s: string)
    ensures ToUpperInvariant(s) == "OA" <==> IsOA(s)
  {
    if ToUpperInvariant(s) == "OA" {
      assert UpperInvariant(s[0]) == 'O' && UpperInvariant(s[1]) == 'A';
    }
    if IsOA(s) {
      assert ToUpperInvariant(s) == [UpperInvariant(s[0]), UpperInvariant(s[1])];
    }
  }

  /** DateTimeFormatter.Format: a null or white-space formatter falls back to
      the default; then "OA" (any case) selects the OLE Automation date, an
      empty or null one the general ToString(), and anything else is used as
      a custom format string. */
  function Format(formatter: Option<string>, datetime: Instant, defaultFormat: Option<string>): string
  {
    var f := if IsNullOrWhiteSpace(formatter) then defaultFormat else formatter;
    var key := ToUpperInvariant(f.GetOr(""));
    if key == "OA" then datetime.oaDate
    else if key == "" then datetime.general
    else datetime.custom(f.value)
  }

  /** The selection rule of Format, stated without its upper-casing. */
  lemma FormatRule(formatter: Option<string>, datetime: Instant, defaultFormat: Option<string>)
    ensures !IsNullOrWhiteSpace(formatter) && IsOA(formatter.value) ==>
      Format(formatter, datetime, defaultFormat) == datetime.oaDate
    ensures !IsNullOrWhiteSpace(formatter) && !IsOA(formatter.value) ==>
      Format(formatter, datetime, defaultFormat) == datetime.custom(formatter.value)
    ensures IsNullOrWhiteSpace(formatter) ==>
      Format(formatter, datetime, defaultFormat) == Format(defaultFormat, datetime, defaultFormat)
    ensures IsNullOrWhiteSpace(formatter) && (defaultFormat == None || defaultFormat == Some("")) ==>
      Format(formatter, datetime, defaultFormat) == datetime.general
  {
    UpperIsOA(formatter.GetOr(""));
    UpperIsOA(defaultFormat.GetOr(""));
  }

  /** SanatizePath: every invalid character becomes '-', all others stay. */
  function SanatizePath(path: string, invalid: set<char>): (r: string)
    ensures |r| == |path|
    ensures forall i :: 0 <= i < |path| ==> r[i] == if path[i] in invalid then '-' else path[i]
  {
    if path == [] then [] else SanatizePath(path[..|path| - 1], invalid) + [if path[|path| - 1] in invalid then '-' else path[|path| - 1]]
  }

  /** With '-' a valid file-name character, a sanitised string holds no invalid
      character and sanitising it again changes nothing. */
  lemma SanatizePathClean(path: string, invalid: set<char>)
    requires '-' !in invalid
    ensures forall i :: 0 <= i < |path| ==> SanatizePath(path, invalid)[i] !in invalid
    ensures SanatizePath(SanatizePath(path, invalid), invalid) == SanatizePath(path, invalid)
  {
  }

  predicate IsDateWord(s: string)
    requires |s| == 4
  {
    (s[0] == 'd' || s[0] == 'D') && (s[1] == 'a' || s[1] == 'A')
    && (s[2] == 't' || s[2] == 'T') && (s[3] == 'e' || s[3] == 'E')
  }

  /** The first '%' at or after position k, if any. */
  function FirstPercent(s: string, k: nat): (j: Option<nat>)
    decreases |s| - k
    ensures j.Some? ==> k <= j.value < |s| && s[j.value] == '%'
    ensures j.Some? ==> forall i :: k <= i < j.value ==> s[i] != '%'
    ensures j.None? ==> forall i :: k <= i < |s| ==> s[i] != '%'
  {
    if k >= |s| then None else if s[k] == '%' then Some(k) else FirstPercent(s, k + 1)
  }

  /** The first '%' from k on is at m when s[m] is one and none lies between. */
  lemma {:induction false} FirstPercentAt(s: string, k: nat, m: nat)
    requires k <= m < |s| && s[m] == '%'
    requires forall i :: k <= i < m ==> s[i] != '%'
    ensures FirstPercent(s, k) == Some(m)
    decreases m - k
  {
    if k < m {
      FirstPercentAt(s, k + 1, m);
    }
  }

  /** A match of `%date(?::([^%]+))?%`: the text of group 1 ("" when the
      group took no part) and the length of the match. */
  datatype Token = Token(group: string, length: nat)

  /** The match of `%date(?::([^%]+))?%` (ignoring case) anchored at the start
      of s. After "%date" the optional group is tried first: ':' and then the
      greedy run of non-'%' characters, which must be non-empty and followed
      by '%'; failing that the pattern needs '%' right after "%date". */
  function TokenAt(s: string): (t: Option<Token>)
    ensures t.Some? ==> 6 <= t.value.length <= |s|
  {
    if |s| < 6 || s[0] != '%' || !IsDateWord(s[1..5]) then None
    else if s[5] == '%' then Some(Token("", 6))
    else if s[5] != ':' then None
    else match FirstPercent(s, 6)
      case Some(j) => if j > 6 then Some(Token(s[6..j], j + 1)) else None
      case None => None
  }

  /** The text that replaces one token. */
  function Substitution(group: string, datetime: Instant, defaultFormat: Option<string>,
                        forFilepath: bool, invalid: set<char>): string
  {
    var formatted := Format(Some(group), datetime, defaultFormat);
    if forFilepath then SanatizePath(formatted, invalid) else formatted
  }

  /** Regex.Replace: scanning left to right, each match is replaced and the
      scan resumes after it; a position where no match starts is copied. */
  function ReplaceTokens(s: string, datetime: Instant, defaultFormat: Option<string>,
                         forFilepath: bool, invalid: set<char>): string
    decreases |s|
  {
    if s == [] then []
    else match TokenAt(s)
      case Some(t) =>
        Substitution(t.group, datetime, defaultFormat, forFilepath, invalid)
          + ReplaceTokens(s[t.length..], datetime, defaultFormat, forFilepath, invalid)
      case None => [s[0]] + ReplaceTokens(s[1..], datetime, defaultFormat, forFilepath, invalid)
  }

  /** DateTimeFormatter.FormatStringTokens (defaults: DefaultFilename, not for a path). */
  function FormatStringTokens(input: string, datetime: Instant, defaultFormat: Option<string>,
                              forFilepath: bool, invalid: set<char>): string
  {
    ReplaceTokens(input, datetime, defaultFormat, forFilepath, invalid)
  }

  /** No match starts anywhere in s. */
  predicate NoToken(s: string) {
    forall i :: 0 <= i < |s| ==> TokenAt(s[i..]).None?
  }

  /** Input without a token comes back unchanged. */
  lemma {:induction false} NoTokenUnchanged(s: string, datetime: Instant, defaultFormat: Option<string>,
                                            forFilepath: bool, invalid: set<char>)
    requires NoToken(s)
    ensures FormatStringTokens(s, datetime, defaultFormat, forFilepath, invalid) == s
  {
    if s != [] {
      assert s[0..] == s;
      assert NoToken(s[1..]) by {
        forall i | 0 <= i < |s[1..]| ensures TokenAt(s[1..][i..]).None? {
          assert s[1..][i..] == s[i + 1..];
        }
      }
      NoTokenUnchanged(s[1..], datetime, defaultFormat, forFilepath, invalid);
    }
  }

  /** Text without '%' is copied as is, even its invalid file-name characters:
      only substituted text is sanitised. */
  lemma {:induction false} LiteralPrefix(lit: string, rest: string, datetime: Instant, defaultFormat: Option<string>,
                                         forFilepath: bool, invalid: set<char>)
    requires '%' !in lit
    ensures FormatStringTokens(lit + rest, datetime, defaultFormat, forFilepath, invalid)
         == lit + FormatStringTokens(rest, datetime, defaultFormat, forFilepath, invalid)
  {
    if lit != [] {
      var s := lit + rest;
      assert s[0] == lit[0] && s[1..] == lit[1..] + rest;
      LiteralPrefix(lit[1..], rest, datetime, defaultFormat, forFilepath, invalid);
    } else {
      assert lit + rest == rest;
    }
  }

  /** A `%date:<fmt>%` token at the front is replaced by fmt's rendering and
      the scan resumes right after its closing '%'. */
  lemma FormattedToken(word: string, fmt: string, rest: string, datetime: Instant, defaultFormat: Option<string>,
                       forFilepath: bool, invalid: set<char>)
    requires |word| == 4 && IsDateWord(word)
    requires |fmt| > 0 && '%' !in fmt
    ensures FormatStringTokens("%" + word + ":" + fmt + "%" + rest, datetime, defaultFormat, forFilepath, invalid)
         == Substitution(fmt, datetime, defaultFormat, forFilepath, invalid)
            + FormatStringTokens(rest, datetime, defaultFormat, forFilepath, invalid)
  {
    var s := "%" + word + ":" + fmt + "%" + rest;
    assert s[1..5] == word && s[5] == ':';
    assert forall i :: 6 <= i < 6 + |fmt| ==> s[i] == fmt[i - 6];
    assert s[6 + |fmt|] == '%';
    FirstPercentAt(s, 6, 6 + |fmt|);
    assert s[6..6 + |fmt|] == fmt;
    assert s[7 + |fmt|..] == rest;
  }

  /** A bare `%date%` token renders with the default format. */
  lemma BareToken(word: string, rest: string, datetime: Instant, defaultFormat: Option<string>,
                  forFilepath: bool, invalid: set<char>)
    requires |word| == 4 && IsDateWord(word)
    ensures FormatStringTokens("%" + word + "%" + rest, datetime, defaultFormat, forFilepath, invalid)
         == Substitution("", datetime, defaultFormat, forFilepath, invalid)
            + FormatStringTokens(rest, datetime, defaultFormat, forFilepath, invalid)
    ensures Substitution("", datetime, defaultFormat, false, invalid) == Format(defaultFormat, datetime, defaultFormat)
  {
    var s := "%" + word + "%" + rest;
    assert s[1..5] == word && s[5] == '%';
    assert s[6..] == rest;
    FormatRule(Some(""), datetime, defaultFormat);
  }

  /** `%date:%` is not a token: the format part must not be empty. */
  lemma EmptyFormatIsLiteral(word: string, rest: string)
    requires |word| == 4
    ensures TokenAt("%" + word + ":%" + rest).None?
  {
    var s := "%" + word + ":%" + rest;
    assert s[5] == ':' && s[6] == '%';
  }

  /** A lone `%date%` renders with the default format when that one is a
      custom format string (not blank, not "OA"). */
  lemma LoneTokenUsesDefault(datetime: Instant, defaultFormat: string, invalid: set<char>)
    requires |defaultFormat| > 2 && !IsWhiteSpace(defaultFormat[0])
    ensures FormatStringTokens("%date%", datetime, Some(defaultFormat), false, invalid)
         == datetime.custom(defaultFormat)
  {
    var s := "%date%";
    assert s[1..5] == "date" && s[5] == '%';
    assert TokenAt(s) == Some(Token("", 6));
    assert s[6..] == [];
    assert IsNullOrWhiteSpace(Some(""));
    assert |ToUpperInvariant(defaultFormat)| > 2;
  }

  /** `%date%` with the default template format renders as "yyyy-MM-dd hh-mm tt". */
  lemma DefaultFilenameFormat(datetime: Instant, invalid: set<char>)
    ensures FormatStringTokens("%date%", datetime, Some(DefaultFilename), false, invalid)
         == datetime.custom(DefaultFilename)
  {
    LoneTokenUsesDefault(datetime, DefaultFilename, invalid);
  }
}
