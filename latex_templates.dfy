/**
 * The LaTeX float snippets: a `figure` environment that includes a graphic and a
 * `table` environment that inputs a table file, each with caption and prefixed label.
 */
module LatexTemplates {
  import opened Strings

  // ---------------------------------------------------------------------------
  // Integers in decimal, as Python's `str(int)`
  // ---------------------------------------------------------------------------

  predicate IsDigit(c: char) { '0' <= c <= '9' }

  function DigitChar(d: nat): (c: char)
    requires d < 10
    ensures IsDigit(c)
  {
    ('0' as int + d) as char
  }

  /** The decimal digits of `n`, without leading zeros. */
  function NatToDecimal(n: nat): (s: string)
    ensures |s| >= 1 && forall i :: 0 <= i < |s| ==> IsDigit(s[i])
    ensures s[0] == '0' ==> n == 0
  {
    if n < 10 then [DigitChar(n)] else NatToDecimal(n / 10) + [DigitChar(n % 10)]
  }

  /** Python's `str(n)` for an integer: a minus sign before the digits of a negative. */
  function IntToDecimal(n: int): (s: string)
    ensures |s| >= 1 && '\n' !in s
  {
    if n < 0 then "-" + NatToDecimal(-n) else NatToDecimal(n)
  }

  /** The value of a string of decimal digits. */
  function DecimalValue(s: string): int
    requires forall i :: 0 <= i < |s| ==> IsDigit(s[i])
  {
    if s == [] then 0 else 10 * DecimalValue(s[..|s| - 1]) + (s[|s| - 1] as int - '0' as int)
  }

  /** Reading an integer back: an optional minus sign followed by digits. */
  function ParseInt(s: string): int
  {
    if |s| >= 1 && s[0] == '-' && forall i :: 1 <= i < |s| ==> IsDigit(s[i]) then -DecimalValue(s[1..])
    else if forall i :: 0 <= i < |s| ==> IsDigit(s[i]) then DecimalValue(s)
    else 0
  }

  lemma {:induction false} DecimalValueOfNat(n: nat)
    ensures DecimalValue(NatToDecimal(n)) == n
  {
    if n >= 10 {
      var s := NatToDecimal(n);
      DecimalValueOfNat(n / 10);
      assert s[..|s| - 1] == NatToDecimal(n / 10);
    }
  }

  /** The spacing numbers are printed so that they read back as the same integer. */
  lemma {:induction false} ParseIntOfDecimal(n: int)
    ensures ParseInt(IntToDecimal(n)) == n
  {
    if n < 0 {
      var s := IntToDecimal(n);
      assert s[1..] == NatToDecimal(-n);
      DecimalValueOfNat(-n);
    } else {
      DecimalValueOfNat(n);
    }
  }

  // ---------------------------------------------------------------------------
  // Float snippets
  // ---------------------------------------------------------------------------

  predicate OneLine(s: string) { '\n' !in s }

  /** The lines of a figure float: an empty first line, the environment, an empty last line. */
  function FigureLines(figurePath: string, caption: string, labelText: string,
                       position: string, captionVspace: int): (lines: seq<string>)
    ensures |lines| == 9 && lines[0] == "" && lines[8] == ""
  {
    [ "",
      "\\begin{figure}[" + position + "]",
      "    \\centering",
      "    \\includegraphics{" + figurePath + "}",
      "    \\vspace{" + IntToDecimal(captionVspace) + "pt}",
      "    \\caption{" + caption + "}",
      "    \\label{fig:" + labelText + "}",
      "\\end{figure}",
      "" ]
  }

  /** The lines of a table float: an empty first line, the environment, an empty last line. */
  function TableLines(tableCodePath: string, caption: string, labelText: string,
                      position: string, tabcolsep: int, captionVspace: int): (lines: seq<string>)
    ensures |lines| == 10 && lines[0] == "" && lines[9] == ""
  {
    [ "",
      "\\begin{table}[" + position + "]",
      "    \\centering",
      "    \\setlength{\\tabcolsep}{" + IntToDecimal(tabcolsep) + "pt}",
      "    \\input{" + tableCodePath + "}",
      "    \\vspace{" + IntToDecimal(captionVspace) + "pt}",
      "    \\caption{" + caption + "}",
      "    \\label{tab:" + labelText + "}",
      "\\end{table}",
      "" ]
  }

  /** `make_figure_float`: the multi-line literal, its lines joined by newlines. */
  function MakeFigureFloat(figurePath: string, caption: string, labelText: string,
                           position: string := "h", captionVspace: int := 0): (r: string)
    ensures |r| >= 2 && r[0] == '\n' && r[|r| - 1] == '\n'
  {
    var lines := FigureLines(figurePath, caption, labelText, position, captionVspace);
    JoinFramed(lines, '\n');
    JoinWith(lines, '\n')
  }

  /** `make_table_float`: the multi-line literal, its lines joined by newlines. */
  function MakeTableFloat(tableCodePath: string, caption: string, labelText: string,
                          position: string := "h", tabcolsep: int := 15, captionVspace: int := 0): (r: string)
    ensures |r| >= 2 && r[0] == '\n' && r[|r| - 1] == '\n'
  {
    var lines := TableLines(tableCodePath, caption, labelText, position, tabcolsep, captionVspace);
    JoinFramed(lines, '\n');
    JoinWith(lines, '\n')
  }

  lemma {:induction false} FigureLinesOneLine(figurePath: string, caption: string, labelText: string,
                                              position: string, captionVspace: int)
    requires OneLine(figurePath) && OneLine(caption) && OneLine(labelText) && OneLine(position)
    ensures var lines := FigureLines(figurePath, caption, labelText, position, captionVspace);
            forall i :: 0 <= i < |lines| ==> OneLine(lines[i])
  {
    var lines := FigureLines(figurePath, caption, labelText, position, captionVspace);
    assert OneLine(lines[0]) && OneLine(lines[1]) && OneLine(lines[2]);
    assert OneLine(lines[3]) && OneLine(lines[4]) && OneLine(lines[5]);
    assert OneLine(lines[6]) && OneLine(lines[7]) && OneLine(lines[8]);
  }

  lemma {:induction false} TableLinesOneLine(tableCodePath: string, caption: string, labelText: string,
                                             position: string, tabcolsep: int, captionVspace: int)
    requires OneLine(tableCodePath) && OneLine(caption) && OneLine(labelText) && OneLine(position)
    ensures var lines := TableLines(tableCodePath, caption, labelText, position, tabcolsep, captionVspace);
            forall i :: 0 <= i < |lines| ==> OneLine(lines[i])
  {
    var lines := TableLines(tableCodePath, caption, labelText, position, tabcolsep, captionVspace);
    assert OneLine(lines[0]) && OneLine(lines[1]) && OneLine(lines[2]);
    assert OneLine(lines[3]) && OneLine(lines[4]) && OneLine(lines[5]);
    assert OneLine(lines[6]) && OneLine(lines[7]);
    assert OneLine(lines[8]) && OneLine(lines[9]);
  }

  /** Split on newlines, a figure float gives back exactly its nine lines, in order. */
  lemma {:induction false} FigureFloatLines(figurePath: string, caption: string, labelText: string,
                                            position: string, captionVspace: int)
    requires OneLine(figurePath) && OneLine(caption) && OneLine(labelText) && OneLine(position)
    ensures SplitOn(MakeFigureFloat(figurePath, caption, labelText, position, captionVspace), '\n')
            == FigureLines(figurePath, caption, labelText, position, captionVspace)
  {
    FigureLinesOneLine(figurePath, caption, labelText, position, captionVspace);
    SplitJoin(FigureLines(figurePath, caption, labelText, position, captionVspace), '\n');
  }

  /** Split on newlines, a table float gives back exactly its ten lines, in order. */
  lemma {:induction false} TableFloatLines(tableCodePath: string, caption: string, labelText: string,
                                           position: string, tabcolsep: int, captionVspace: int)
    requires OneLine(tableCodePath) && OneLine(caption) && OneLine(labelText) && OneLine(position)
    ensures SplitOn(MakeTableFloat(tableCodePath, caption, labelText, position, tabcolsep, captionVspace), '\n')
            == TableLines(tableCodePath, caption, labelText, position, tabcolsep, captionVspace)
  {
    TableLinesOneLine(tableCodePath, caption, labelText, position, tabcolsep, captionVspace);
    SplitJoin(TableLines(tableCodePath, caption, labelText, position, tabcolsep, captionVspace), '\n');
  }

  lemma {:induction false} DefaultSpacings()
    ensures IntToDecimal(0) == "0" && IntToDecimal(15) == "15"
  {
    assert NatToDecimal(15) == NatToDecimal(1) + [DigitChar(5)];
  }

  /** Called with defaults, a figure sits at position `h` with no extra caption spacing. */
  lemma {:induction false} FigureFloatDefaults(figurePath: string, caption: string, labelText: string)
    ensures var lines := FigureLines(figurePath, caption, labelText, "h", 0);
            MakeFigureFloat(figurePath, caption, labelText) == JoinWith(lines, '\n')
            && lines[1] == "\\begin{figure}[h]" && lines[4] == "    \\vspace{0pt}"
  {
    DefaultSpacings();
  }

  /** Called with defaults, a table sits at position `h`, separates columns by 15 pt and adds no caption spacing. */
  lemma {:induction false} TableFloatDefaults(tableCodePath: string, caption: string, labelText: string)
    ensures var lines := TableLines(tableCodePath, caption, labelText, "h", 15, 0);
            MakeTableFloat(tableCodePath, caption, labelText) == JoinWith(lines, '\n')
            && lines[1] == "\\begin{table}[h]"
            && lines[3] == "    \\setlength{\\tabcolsep}{15pt}" && lines[5] == "    \\vspace{0pt}"
  {
    DefaultSpacings();
  }
}
