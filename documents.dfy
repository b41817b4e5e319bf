/**
 * The word-processing document as the tone engine sees it: a document is a sequence of
 * paragraphs, a paragraph a sequence of runs, and a run a piece of text with one formatting.
 */
module Documents {

  /** A run's character formatting; everything beyond bold and italic is kept as an opaque style. */
  datatype Format = Format(bold: bool, italic: bool, style: string)

  datatype Run = Run(text: string, format: Format)

  /** A paragraph's content as a value: its runs in order. */
  type ParagraphValue = seq<Run>

  /** A paragraph's text projection: the texts of its runs, concatenated in order. */
  function RunsText(runs: seq<Run>): string
  {
    if runs == [] then "" else runs[0].text + RunsText(runs[1..])
  }

  /** The text projection of every paragraph of a document value, position by position. */
  function TextsOf(doc: seq<ParagraphValue>): (texts: seq<string>)
    ensures |texts| == |doc|
    ensures forall j :: 0 <= j < |doc| ==> texts[j] == RunsText(doc[j])
  {
    seq(|doc|, j requires 0 <= j < |doc| => RunsText(doc[j]))
  }

  /** A paragraph object whose run list is updated in place. */
  class Paragraph {
    var runs: seq<Run>

    constructor (runs: seq<Run>)
      ensures this.runs == runs
    {
      this.runs := runs;
    }

    /** `getText()`. */
    function Text(): string
      reads this
    {
      RunsText(runs)
    }

    /** `getRuns().get(pos).setText(text, 0)`: the run keeps its formatting and gets the new text. */
    method SetRunText(pos: nat, text: string)
      requires pos < |runs|
      modifies this
      ensures runs == old(runs)[pos := Run(text, old(runs)[pos].format)]
    {
      runs := runs[pos := Run(text, runs[pos].format)];
    }

    /** `removeRun(pos)`: drops the run at `pos` when there is one and reports whether it did. */
    method RemoveRun(pos: int) returns (removed: bool)
      modifies this
      ensures removed == (0 <= pos < |old(runs)|)
      ensures removed ==> runs == old(runs)[..pos] + old(runs)[pos + 1..]
      ensures !removed ==> runs == old(runs)
    {
      removed := 0 <= pos < |runs|;
      if removed {
        runs := runs[..pos] + runs[pos + 1..];
      }
    }
  }

  /** A document object: its paragraphs in order, each paragraph object appearing once. */
  class Document {
    var paragraphs: seq<Paragraph>

    constructor (paragraphs: seq<Paragraph>)
      ensures this.paragraphs == paragraphs
    {
      this.paragraphs := paragraphs;
    }

    ghost predicate Valid()
      reads this
    {
      forall i, j :: 0 <= i < j < |paragraphs| ==> paragraphs[i] != paragraphs[j]
    }

    /** The document's content as a value: every paragraph's runs, in document order. */
    function Snapshot(): (doc: seq<ParagraphValue>)
      reads this, paragraphs
      ensures |doc| == |paragraphs|
      ensures forall j :: 0 <= j < |paragraphs| ==> doc[j] == paragraphs[j].runs
    {
      seq(|paragraphs|, j reads this, paragraphs requires 0 <= j < |paragraphs| => paragraphs[j].runs)
    }
  }
}
