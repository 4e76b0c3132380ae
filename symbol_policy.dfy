/**
 * The list-wide item symbol: which bullet a batch of pasted lines carries
 * (`detectAndSetItemSymbol`).
 */
module SymbolPolicy {
  import opened Wrappers
  import opened LineParser

  /**
   * The first result `detect` gives, over the lines in order, or "" when it
   * gives none (`lines.compactMap(detect).first ?? ""`).
   */
  function FirstDetected(lines: seq<string>, detect: string -> Option<string>): (r: string)
    ensures (forall i :: 0 <= i < |lines| ==> detect(lines[i]).None?) ==> r == ""
    ensures forall i :: 0 <= i < |lines| && detect(lines[i]).Some? && (forall j :: 0 <= j < i ==> detect(lines[j]).None?)
                        ==> r == detect(lines[i]).value
    ensures r != "" ==> exists i :: 0 <= i < |lines| && detect(lines[i]) == Some(r)
                                    && forall j :: 0 <= j < i ==> detect(lines[j]).None?
  {
    if lines == [] then ""
    else match detect(lines[0])
      case Some(sym) => sym
      case None =>
        var r := FirstDetected(lines[1..], detect);
        assert forall j :: 1 <= j < |lines| ==> lines[j] == lines[1..][j - 1];
        r
  }

  /** The symbol a batch of lines sets: that of the first line that has one, or "". */
  function DetectedSymbol(lines: seq<string>): (r: string)
    ensures r == "" || r in SupportedSymbols
  {
    assert "" !in SupportedSymbols;
    FirstDetectedIn(lines, DetectItemSymbol, SupportedSymbols);
    FirstDetected(lines, DetectItemSymbol)
  }

  /**
   * When `detect` only ever yields values from a list without "", the first
   * detected value is "" exactly when nothing is detected, and otherwise one
   * of the listed values.
   */
  lemma {:induction false} FirstDetectedIn(lines: seq<string>, detect: string -> Option<string>, allowed: seq<string>)
    requires "" !in allowed
    requires forall line :: detect(line).Some? ==> detect(line).value in allowed
    ensures var r := FirstDetected(lines, detect);
      && (r == "" || r in allowed)
      && (r == "" <==> forall i :: 0 <= i < |lines| ==> detect(lines[i]).None?)
  {
    if lines != [] && detect(lines[0]).None? {
      FirstDetectedIn(lines[1..], detect, allowed);
      assert forall i :: 1 <= i < |lines| ==> lines[i] == lines[1..][i - 1];
    }
  }

  /**
   * The detected symbol is "" exactly when no line carries a symbol;
   * otherwise it is a supported symbol, the one of the first line that
   * carries any.
   */
  lemma DetectedSymbolSpec(lines: seq<string>)
    ensures var r := DetectedSymbol(lines);
      && (r == "" || r in SupportedSymbols)
      && (r == "" <==> forall i :: 0 <= i < |lines| ==> DetectItemSymbol(lines[i]).None?)
      && (r != "" ==> exists i :: 0 <= i < |lines| && DetectItemSymbol(lines[i]) == Some(r)
                                  && forall j :: 0 <= j < i ==> DetectItemSymbol(lines[j]).None?)
  {
    assert "" !in SupportedSymbols;
    FirstDetectedIn(lines, DetectItemSymbol, SupportedSymbols);
  }
}
