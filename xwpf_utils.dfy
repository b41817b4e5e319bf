/** Replacing a paragraph's visible text while keeping the first run's formatting. */
module XWPFUtils {
  import opened Documents

  /**
   * The run list after its text is replaced: nothing when there is no run, otherwise the first
   * run alone, with its own formatting and the new text.
   */
  function Replaced(runs: seq<Run>, text: string): (r: seq<Run>)
    ensures runs == [] ==> r == []
    ensures runs != [] ==> |r| == 1 && r[0].format == runs[0].format && RunsText(r) == text
  {
    if runs == [] then [] else [Run(text, runs[0].format)]
  }

  /** `replaceParagraphText`: sets the first run's text, then removes the others from the last one down. */
  method ReplaceParagraphText(paragraph: Paragraph, text: string)
    modifies paragraph
    ensures paragraph.runs == Replaced(old(paragraph.runs), text)
  {
    if |paragraph.runs| != 0 {
      paragraph.SetRunText(0, text);
      var i := |paragraph.runs| - 1;
      while i > 0
        invariant 0 <= i < |old(paragraph.runs)|
        invariant paragraph.runs == [Run(text, old(paragraph.runs)[0].format)] + old(paragraph.runs)[1..i + 1]
        decreases i
      {
        var _ := paragraph.RemoveRun(i);
        i := i - 1;
      }
    }
  }

  /** Replacing twice with the same text is replacing once. */
  lemma ReplacedIdempotent(runs: seq<Run>, text: string)
    ensures Replaced(Replaced(runs, text), text) == Replaced(runs, text)
  {
  }

  /** A paragraph with text has runs, so its text projection becomes exactly the new text. */
  lemma ReplacedText(runs: seq<Run>, text: string)
    requires RunsText(runs) != ""
    ensures RunsText(Replaced(runs, text)) == text
  {
  }
}
