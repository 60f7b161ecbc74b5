/**
 * The three column helpers of the DataFrame-to-booktabs formatter:
 * parsing a column specification, padding one column to a common width,
 * and building the Python format template for an siunitx S-column spec.
 */
module Booktabs {
  import opened Wrappers
  import opened Strings

  // ---------------------------------------------------------------------------
  // Whitespace splitting (Python's `str.split()` with no separator)
  // ---------------------------------------------------------------------------

  /** The characters Python's `str.isspace` accepts; `str.split()` splits on runs of them. */
  predicate IsSpace(c: char)
  {
    c in {' ', '\t', '\n', '\r', '\U{0B}', '\U{0C}', '\U{1C}', '\U{1D}', '\U{1E}', '\U{1F}',
          '\U{85}', '\U{A0}', '\U{1680}', '\U{2000}', '\U{2001}', '\U{2002}', '\U{2003}',
          '\U{2004}', '\U{2005}', '\U{2006}', '\U{2007}', '\U{2008}', '\U{2009}', '\U{200A}',
          '\U{2028}', '\U{2029}', '\U{202F}', '\U{205F}', '\U{3000}'}
  }

  /** A piece `str.split()` can produce: non-empty and free of whitespace. */
  predicate IsToken(w: string)
  {
    |w| > 0 && forall i :: 0 <= i < |w| ==> !IsSpace(w[i])
  }

  /** The longest whitespace-free prefix of `s`. */
  function Word(s: string): (w: string)
    ensures |w| <= |s| && w == s[..|w|]
    ensures forall i :: 0 <= i < |w| ==> !IsSpace(w[i])
    ensures |w| < |s| ==> IsSpace(s[|w|])
  {
    if s == [] || IsSpace(s[0]) then [] else [s[0]] + Word(s[1..])
  }

  /** Python's `s.split()`: the maximal runs of non-whitespace, in order. */
  function SplitWhitespace(s: string): (tokens: seq<string>)
    ensures forall i :: 0 <= i < |tokens| ==> IsToken(tokens[i])
    decreases |s|
  {
    if s == [] then []
    else if IsSpace(s[0]) then SplitWhitespace(s[1..])
    else
      var w := Word(s);
      [w] + SplitWhitespace(s[|w|..])
  }

  lemma {:induction false} WordOfConcat(w: string, tail: string)
    requires forall i :: 0 <= i < |w| ==> !IsSpace(w[i])
    requires tail == [] || IsSpace(tail[0])
    ensures Word(w + tail) == w
  {
    if w != [] {
      assert (w + tail)[1..] == w[1..] + tail;
      WordOfConcat(w[1..], tail);
    }
  }

  /** A spec string yields no tokens exactly when it is all whitespace. */
  lemma {:induction false} SplitBlankIff(s: string)
    ensures SplitWhitespace(s) == [] <==> forall i :: 0 <= i < |s| ==> IsSpace(s[i])
    decreases |s|
  {
    if s != [] && IsSpace(s[0]) {
      SplitBlankIff(s[1..]);
      assert forall i :: 1 <= i < |s| ==> s[i] == s[1..][i - 1];
    }
  }

  /** Re-splitting tokens joined by single spaces gives the tokens back. */
  lemma {:induction false} SplitJoinSpaces(tokens: seq<string>)
    requires forall i :: 0 <= i < |tokens| ==> IsToken(tokens[i])
    ensures SplitWhitespace(JoinWith(tokens, ' ')) == tokens
  {
    if |tokens| == 1 {
      WordOfConcat(tokens[0], []);
      assert tokens[0] + [] == tokens[0];
    } else if |tokens| > 1 {
      var t := tokens[0];
      var rest := JoinWith(tokens[1..], ' ');
      var s := t + [' '] + rest;
      WordOfConcat(t, [' '] + rest);
      assert s == t + ([' '] + rest);
      assert s[0] == t[0];
      assert s[|t|..] == [' '] + rest;
      assert ([' '] + rest)[1..] == rest;
      SplitJoinSpaces(tokens[1..]);
      assert tokens == [t] + tokens[1..];
    }
  }

  predicate AllSpace(g: string)
  {
    forall i :: 0 <= i < |g| ==> IsSpace(g[i])
  }

  /**
   * The string `gaps[0] + tokens[0] + gaps[1] + ... + tokens[n-1] + gaps[n]`:
   * tokens laid out between runs of whitespace.
   */
  function Spaced(tokens: seq<string>, gaps: seq<string>): string
    requires |gaps| == |tokens| + 1
  {
    if tokens == [] then gaps[0] else gaps[0] + tokens[0] + Spaced(tokens[1..], gaps[1..])
  }

  /** Leading whitespace never produces a token. */
  lemma {:induction false} SplitSkipsSpace(g: string, rest: string)
    requires AllSpace(g)
    ensures SplitWhitespace(g + rest) == SplitWhitespace(rest)
  {
    if g == [] {
      assert g + rest == rest;
    } else {
      assert IsSpace((g + rest)[0]);
      assert (g + rest)[1..] == g[1..] + rest;
      assert AllSpace(g[1..]) by {
        assert forall i :: 0 <= i < |g| - 1 ==> g[1..][i] == g[i + 1];
      }
      SplitSkipsSpace(g[1..], rest);
    }
  }

  /** A token followed by nothing or by whitespace is split off whole. */
  lemma {:induction false} SplitTakesToken(t: string, rest: string)
    requires IsToken(t)
    requires rest == [] || IsSpace(rest[0])
    ensures SplitWhitespace(t + rest) == [t] + SplitWhitespace(rest)
  {
    WordOfConcat(t, rest);
    assert (t + rest)[0] == t[0];
    assert (t + rest)[|t|..] == rest;
  }

  /**
   * `str.split()` splits on runs of whitespace: tokens separated by any non-empty
   * whitespace, with any whitespace before and after, split back into those tokens.
   */
  lemma {:induction false} SplitSpaced(tokens: seq<string>, gaps: seq<string>)
    requires |gaps| == |tokens| + 1
    requires forall i :: 0 <= i < |tokens| ==> IsToken(tokens[i])
    requires forall i :: 0 <= i < |gaps| ==> AllSpace(gaps[i])
    requires forall i :: 0 < i < |tokens| ==> gaps[i] != []
    ensures SplitWhitespace(Spaced(tokens, gaps)) == tokens
  {
    if tokens == [] {
      SplitSkipsSpace(gaps[0], []);
      assert gaps[0] + [] == gaps[0];
    } else {
      var rest := Spaced(tokens[1..], gaps[1..]);
      assert AllSpace(gaps[1]);
      assert rest == [] || IsSpace(rest[0]) by {
        if |tokens| > 1 {
          assert gaps[1] != [];
          assert rest[0] == gaps[1][0];
        } else {
          assert rest == gaps[1];
        }
      }
      SplitSpaced(tokens[1..], gaps[1..]);
      SplitTakesToken(tokens[0], rest);
      SplitSkipsSpace(gaps[0], tokens[0] + rest);
      assert Spaced(tokens, gaps) == gaps[0] + (tokens[0] + rest);
      assert tokens == [tokens[0]] + tokens[1..];
    }
  }

  lemma {:induction false} SpacedPrepend(p: string, tokens: seq<string>, gaps: seq<string>)
    requires |gaps| == |tokens| + 1
    ensures Spaced(tokens, [p + gaps[0]] + gaps[1..]) == p + Spaced(tokens, gaps)
  {
    var moved := [p + gaps[0]] + gaps[1..];
    assert moved[0] == p + gaps[0] && moved[1..] == gaps[1..];
    if tokens != [] {
      assert Spaced(tokens, moved) == p + gaps[0] + tokens[0] + Spaced(tokens[1..], gaps[1..]);
    }
  }

  lemma {:induction false} SpacedToken(w: string, tokens: seq<string>, gaps: seq<string>)
    requires |gaps| == |tokens| + 1
    ensures Spaced([w] + tokens, [""] + gaps) == w + Spaced(tokens, gaps)
  {
    assert ([w] + tokens)[1..] == tokens && ([""] + gaps)[1..] == gaps;
    assert ([w] + tokens)[0] == w && ([""] + gaps)[0] == "";
  }

  /**
   * Every string is its own tokens laid out between runs of whitespace, so with
   * `SplitSpaced` the tokens of any string are determined.
   */
  lemma {:induction false} SplitDecomposes(s: string) returns (gaps: seq<string>)
    ensures |gaps| == |SplitWhitespace(s)| + 1
    ensures forall i :: 0 <= i < |gaps| ==> AllSpace(gaps[i])
    ensures forall i :: 0 < i < |SplitWhitespace(s)| ==> gaps[i] != []
    ensures s != [] && IsSpace(s[0]) ==> gaps[0] != []
    ensures s == Spaced(SplitWhitespace(s), gaps)
    decreases |s|
  {
    var tokens := SplitWhitespace(s);
    if s == [] {
      gaps := [""];
    } else if IsSpace(s[0]) {
      var g := SplitDecomposes(s[1..]);
      gaps := [[s[0]] + g[0]] + g[1..];
      assert tokens == SplitWhitespace(s[1..]);
      assert AllSpace(gaps[0]) by {
        assert forall i :: 1 <= i < |gaps[0]| ==> gaps[0][i] == g[0][i - 1];
      }
      assert forall i :: 1 <= i < |gaps| ==> gaps[i] == g[i];
      SpacedPrepend([s[0]], tokens, g);
      assert s == [s[0]] + s[1..];
    } else {
      var w := Word(s);
      var rest := s[|w|..];
      var g := SplitDecomposes(rest);
      gaps := [""] + g;
      var more := SplitWhitespace(rest);
      assert tokens == [w] + more;
      assert forall i :: 1 <= i < |gaps| ==> gaps[i] == g[i - 1];
      assert AllSpace(gaps[0]);
      SpacedToken(w, more, g);
      assert s == w + rest;
    }
  }

  // ---------------------------------------------------------------------------
  // Column specification parser
  // ---------------------------------------------------------------------------

  /** A column specification as callers write it: a token list or one string. */
  datatype ColumnSpec = Tokens(items: seq<string>) | Text(text: string)

  /** The parsed 4-tuple (key, name, unit, format). */
  datatype ColumnProperty = ColumnProperty(key: string, name: string, unit: string, format: Option<string>)

  /** The token list the parser indexes: a string spec is split on whitespace first. */
  function SpecTokens(cp: ColumnSpec): (t: seq<string>)
    ensures cp.Tokens? ==> t == cp.items
    ensures cp.Text? ==> forall i :: 0 <= i < |t| ==> IsToken(t[i])
  {
    match cp
    case Tokens(items) => items
    case Text(text) => SplitWhitespace(text)
  }

  /** `_parse_column_property`: indexing an empty token list raises `IndexError`. */
  function ParseColumnProperty(cp: ColumnSpec): (r: Result<ColumnProperty>)
    ensures r.Ok? <==> |SpecTokens(cp)| >= 1
    ensures r.Ok? ==> r.value.key == SpecTokens(cp)[0]
    ensures r.Ok? ==> r.value.name == (if |SpecTokens(cp)| >= 2 then SpecTokens(cp)[1] else r.value.key)
    ensures r.Ok? ==> r.value.unit == (if |SpecTokens(cp)| >= 3 then SpecTokens(cp)[2] else "")
    ensures r.Ok? ==> r.value.format == (if |SpecTokens(cp)| >= 4 then Some(SpecTokens(cp)[3]) else None)
  {
    var t := SpecTokens(cp);
    if |t| == 0 then Err(IndexError)
    else
      var key := t[0];
      var name := if |t| >= 2 then t[1] else key;
      var unit := if |t| >= 3 then t[2] else "";
      var format := if |t| >= 4 then Some(t[3]) else None;
      Ok(ColumnProperty(key, name, unit, format))
  }

  /** Tokens beyond the fourth never influence the parse. */
  lemma ParseIgnoresExtraTokens(t: seq<string>, extra: seq<string>)
    requires |t| == 4
    ensures ParseColumnProperty(Tokens(t + extra)) == ParseColumnProperty(Tokens(t))
  {
    assert (t + extra)[..4] == t;
    assert (t + extra)[3] == t[3];
  }

  /** A string spec fails exactly when it holds nothing but whitespace. */
  lemma ParseTextFailsIffBlank(s: string)
    ensures ParseColumnProperty(Text(s)).Err? <==> forall i :: 0 <= i < |s| ==> IsSpace(s[i])
  {
    SplitBlankIff(s);
  }

  /** The shortest token list that describes `p`: trailing defaults are dropped. */
  function CanonicalTokens(p: ColumnProperty): seq<string>
  {
    if p.format.Some? then [p.key, p.name, p.unit, p.format.value]
    else if p.unit != "" then [p.key, p.name, p.unit]
    else if p.name != p.key then [p.key, p.name]
    else [p.key]
  }

  /** Every property comes back from its canonical token list. */
  lemma ParseCanonicalTokens(p: ColumnProperty)
    ensures ParseColumnProperty(Tokens(CanonicalTokens(p))) == Ok(p)
  {
  }

  /** A property whose fields are whitespace-free can be written as one spec string. */
  predicate TextRepresentable(p: ColumnProperty)
  {
    IsToken(p.key) && IsToken(p.name)
    && (if p.unit == "" then p.format.None? else IsToken(p.unit))
    && (p.format.Some? ==> IsToken(p.format.value))
  }

  /** The string spec `"key name unit format"` parses to the same property as its tokens. */
  lemma ParseCanonicalText(p: ColumnProperty)
    requires TextRepresentable(p)
    ensures ParseColumnProperty(Text(JoinWith(CanonicalTokens(p), ' '))) == Ok(p)
  {
    var t := CanonicalTokens(p);
    assert forall i :: 0 <= i < |t| ==> IsToken(t[i]);
    SplitJoinSpaces(t);
    ParseCanonicalTokens(p);
  }

  // ---------------------------------------------------------------------------
  // Column equaliser
  // ---------------------------------------------------------------------------

  function Spaces(n: nat): (r: string)
    ensures |r| == n && forall i :: 0 <= i < n ==> r[i] == ' '
  {
    seq(n, _ => ' ')
  }

  /** `out` is `s` followed only by spaces (Python's `"{:<w}".format(s)`). */
  predicate IsLeftJustified(out: string, s: string)
  {
    |s| <= |out| && out[..|s|] == s && forall i :: |s| <= i < |out| ==> out[i] == ' '
  }

  /** `out` is `s` preceded only by spaces (Python's `"{:>w}".format(s)`). */
  predicate IsRightJustified(out: string, s: string)
  {
    |s| <= |out| && out[|out| - |s|..] == s && forall i :: 0 <= i < |out| - |s| ==> out[i] == ' '
  }

  /** Python's `"{:<width}".format(s)`: pad on the right, never truncate. */
  function LeftJustify(s: string, width: nat): (r: string)
    ensures IsLeftJustified(r, s)
    ensures |r| == if |s| < width then width else |s|
  {
    if |s| < width then s + Spaces(width - |s|) else s
  }

  /** Python's `"{:>width}".format(s)`: pad on the left, never truncate. */
  function RightJustify(s: string, width: nat): (r: string)
    ensures IsRightJustified(r, s)
    ensures |r| == if |s| < width then width else |s|
  {
    if |s| < width then Spaces(width - |s|) + s else s
  }

  /** `len(max(ss, key=len))`: the length of the longest string. */
  function LongestLength(ss: seq<string>): (n: nat)
    requires ss != []
    ensures forall i :: 0 <= i < |ss| ==> |ss[i]| <= n
    ensures exists i :: 0 <= i < |ss| && |ss[i]| == n
  {
    if |ss| == 1 then |ss[0]|
    else
      var m := LongestLength(ss[1..]);
      assert forall i :: 1 <= i < |ss| ==> ss[i] == ss[1..][i - 1];
      if |ss[0]| > m then |ss[0]| else m
  }

  /** `_make_column_strings_equal_length`: header name, unit, then the data cells. */
  function EqualizeColumn(name: string, unit: string, cells: seq<string>): (r: seq<string>)
    ensures |r| == |cells| + 2
    ensures forall i :: 0 <= i < |r| ==> |r[i]| == |r[0]|
    ensures IsLeftJustified(r[0], name) && IsLeftJustified(r[1], unit)
    ensures forall i :: 0 <= i < |cells| ==> IsRightJustified(r[2 + i], cells[i])
    ensures |r[0]| == |name| || |r[0]| == |unit| || exists i :: 0 <= i < |cells| && |cells[i]| == |r[0]|
  {
    ColumnWidth(name, unit, cells);
    var width := LongestLength(cells + [name, unit]);
    [LeftJustify(name, width), LeftJustify(unit, width)]
      + seq(|cells|, i requires 0 <= i < |cells| => RightJustify(cells[i], width))
  }

  /** The padding width is the longest of the name, the unit and the cells. */
  lemma ColumnWidth(name: string, unit: string, cells: seq<string>)
    ensures var w := LongestLength(cells + [name, unit]);
            |name| <= w && |unit| <= w && (forall i :: 0 <= i < |cells| ==> |cells[i]| <= w)
            && (w == |name| || w == |unit| || exists i :: 0 <= i < |cells| && |cells[i]| == w)
  {
    var all := cells + [name, unit];
    var w := LongestLength(all);
    assert all[|cells|] == name && all[|cells| + 1] == unit;
    assert forall i :: 0 <= i < |cells| ==> all[i] == cells[i];
    var k :| 0 <= k < |all| && |all[k]| == w;
    if k < |cells| {
      assert |cells[k]| == w;
    }
  }

  /** A column whose strings already share one length is returned as it is. */
  lemma {:induction false} EqualizeUniform(name: string, unit: string, cells: seq<string>)
    requires |unit| == |name|
    requires forall i :: 0 <= i < |cells| ==> |cells[i]| == |name|
    ensures EqualizeColumn(name, unit, cells) == [name, unit] + cells
  {
    var all := cells + [name, unit];
    assert forall i :: 0 <= i < |all| ==> |all[i]| == |name| by {
      forall i | 0 <= i < |all| ensures |all[i]| == |name| {
        if i < |cells| { assert all[i] == cells[i]; }
      }
    }
    var w := LongestLength(all);
    assert w == |name| by {
      var k :| 0 <= k < |all| && |all[k]| == w;
      assert |all[|cells|]| <= w;
    }
    var padded := seq(|cells|, i requires 0 <= i < |cells| => RightJustify(cells[i], w));
    assert padded == cells by {
      forall i | 0 <= i < |cells| ensures padded[i] == cells[i] {
        assert |cells[i]| == w;
      }
    }
    assert LeftJustify(name, w) == name;
    assert LeftJustify(unit, w) == unit;
  }

  /** Equalising an already equalised column changes nothing. */
  lemma EqualizeIdempotent(name: string, unit: string, cells: seq<string>)
    ensures var r := EqualizeColumn(name, unit, cells);
            EqualizeColumn(r[0], r[1], r[2..]) == r
  {
    var r := EqualizeColumn(name, unit, cells);
    EqualizeUniform(r[0], r[1], r[2..]);
    assert [r[0], r[1]] + r[2..] == r;
  }

  // ---------------------------------------------------------------------------
  // Numeric format builder
  // ---------------------------------------------------------------------------

  /**
   * `_make_formater_from_s_col_format_string`, as the template string it formats with:
   * fixed-point `f` for a spec without `e`, otherwise exponential `e` with the
   * exponent digits after the first `e` dropped.
   */
  function MakeFormatTemplate(formatString: string): (t: string)
    ensures |t| >= 4 && t[..2] == "{:" && t[|t| - 1] == '}'
    ensures 'e' !in formatString ==> t[2..|t| - 1] == formatString + "f"
    ensures 'e' in formatString ==>
              var spec := t[2..|t| - 1];
              spec[|spec| - 1] == 'e' && 'e' !in spec[..|spec| - 1]
              && |spec| <= |formatString| && spec == formatString[..|spec|]
  {
    var fmt := if 'e' in formatString then SplitOn(formatString, 'e')[0] + "e" else formatString + "f";
    "{:" + fmt + "}"
  }

  /** A spec `p + "e" + q` (no `e` in `p`) yields the template `"{:" + p + "e}"`, whatever `q` is. */
  lemma ExponentialTemplate(p: string, q: string)
    requires 'e' !in p
    ensures MakeFormatTemplate(p + "e" + q) == "{:" + p + "e}"
  {
    BeforeFirstOfConcat(p, 'e', q);
    assert p + "e" + q == p + ['e'] + q;
    assert 'e' in p + "e" + q by { assert (p + "e" + q)[|p|] == 'e'; }
  }

  /** A spec without `e` yields the fixed-point template `"{:" + p + "f}"`. */
  lemma FixedTemplate(p: string)
    requires 'e' !in p
    ensures MakeFormatTemplate(p) == "{:" + p + "f}"
  {
    assert "{:" + (p + "f") + "}" == "{:" + p + "f}";
  }

  /** The example spec `"1.2"` is fixed-point with two decimals. */
  lemma FixedTemplateExample()
    ensures MakeFormatTemplate("1.2") == "{:1.2f}"
  {
    assert 'e' !in "1.2" by { assert "1.2" == ['1', '.', '2']; }
    FixedTemplate("1.2");
  }

  /** The example spec `"4.3e1"` is exponential with three decimals; the `1` after `e` is dropped. */
  lemma ExponentialTemplateExample()
    ensures MakeFormatTemplate("4.3e1") == "{:4.3e}"
  {
    assert 'e' !in "4.3" by { assert "4.3" == ['4', '.', '3']; }
    ExponentialTemplate("4.3", "1");
    assert "4.3" + "e" + "1" == "4.3e1";
  }
}
