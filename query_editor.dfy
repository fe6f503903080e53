/** The query editor (src/components/QueryEditor.tsx): its line count, the
    height it sizes itself to, and the line-number gutter. */
module QueryEditor {
  import opened Text

  /** `value.split("\n").length` */
  function LineCount(value: string): (n: nat)
    ensures n == multiset(value)['\n'] + 1
  {
    SplitCount(value, '\n');
    |SplitOn(value, '\n')|
  }

  /** Rows of 20 pixels. */
  const LineHeight := 20
  const MinHeight := 200
  const MaxHeight := 600

  /** `Math.min(Math.max(lineCount * 20, 200), 600)` */
  function EditorHeight(lineCount: nat): (h: int)
    ensures MinHeight <= h <= MaxHeight
  {
    var h := if lineCount * LineHeight >= MinHeight then lineCount * LineHeight else MinHeight;
    if h <= MaxHeight then h else MaxHeight
  }

  /** More lines never make the editor shorter. */
  lemma HeightMonotone(a: nat, b: nat)
    requires a <= b
    ensures EditorHeight(a) <= EditorHeight(b)
  {
  }

  /** Between 10 and 30 lines the editor is exactly as tall as its lines. */
  lemma HeightFollowsLines(lineCount: nat)
    requires 10 <= lineCount <= 30
    ensures EditorHeight(lineCount) == lineCount * LineHeight
  {
  }

  /** The height for a text: one more line per newline, clamped. */
  lemma HeightOfText(value: string)
    ensures EditorHeight(LineCount(value)) == if multiset(value)['\n'] < 9 then MinHeight
                                              else if multiset(value)['\n'] > 29 then MaxHeight
                                              else (multiset(value)['\n'] + 1) * LineHeight
  {
  }

  /** The gutter: the numbers 1 to the line count, one per line. */
  function Gutter(value: string): (numbers: seq<int>)
    ensures |numbers| == LineCount(value)
    ensures forall i :: 0 <= i < |numbers| ==> numbers[i] == i + 1
  {
    seq(LineCount(value), i requires 0 <= i => i + 1)
  }
}
