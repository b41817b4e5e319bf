/**
 * The tone-transposition engine of the word-processing tone service: classifying a document's
 * tone, and rewriting every paragraph with text of a cloned document in a given tone, each with a
 * bounded window of neighbouring paragraphs from the original document as context.
 *
 * The text generator is a function from prompt to reply, given to the service when it is built.
 * The rewrite requests are issued concurrently and their replies gathered by index, which is
 * modelled as computing all replies first and merging them afterwards in index order.
 */
module DocxToneManagement {
  import opened Wrappers
  import opened Strings
  import opened StylisticTones
  import opened Documents
  import opened XWPFUtils

  /** How many neighbouring paragraphs on each side a rewrite request sees. */
  const ContextWindow: nat := 6

  function Min(a: int, b: int): int { if a <= b then a else b }

  function Max(a: int, b: int): int { if a >= b then a else b }

  // ----- Paragraphs with text -----------------------------------------------------------------

  /**
   * The positions of the paragraphs whose text is not empty: exactly those, each once, in
   * increasing order.
   */
  function NonEmptyPositions(texts: seq<string>): (pos: seq<nat>)
    ensures |pos| <= |texts|
    ensures forall k :: 0 <= k < |pos| ==> pos[k] < |texts| && texts[pos[k]] != ""
    ensures forall k, l :: 0 <= k < l < |pos| ==> pos[k] < pos[l]
    ensures forall j :: 0 <= j < |texts| && texts[j] != "" ==> j in pos
  {
    if texts == [] then []
    else
      var rest := NonEmptyPositions(texts[..|texts| - 1]);
      if texts[|texts| - 1] != "" then rest + [|texts| - 1] else rest
  }

  /** The elements of `s` at the given positions, in the order of the positions. */
  function Select<T>(s: seq<T>, pos: seq<nat>): (r: seq<T>)
    requires forall k :: 0 <= k < |pos| ==> pos[k] < |s|
    ensures |r| == |pos|
    ensures forall k :: 0 <= k < |pos| ==> r[k] == s[pos[k]]
  {
    seq(|pos|, k requires 0 <= k < |pos| => s[pos[k]])
  }

  /** Every element at a listed position is among the selected ones. */
  lemma SelectContains<T>(s: seq<T>, pos: seq<nat>)
    requires forall k :: 0 <= k < |pos| ==> pos[k] < |s|
    ensures forall j :: j in pos ==> s[j] in Select(s, pos)
  {
    forall j | j in pos
      ensures s[j] in Select(s, pos)
    {
      var k :| 0 <= k < |pos| && pos[k] == j;
      assert Select(s, pos)[k] == s[j];
    }
  }

  /**
   * `stream().filter(p -> !p.getText().isEmpty()).toList()`, on the paragraphs' texts: the texts
   * of the paragraphs with text, in document order; none of them is empty, each is a text of the
   * input, and every non-empty text of the input is among them.
   */
  function NonEmptyTexts(texts: seq<string>): (r: seq<string>)
    ensures |r| == |NonEmptyPositions(texts)| <= |texts|
    ensures forall k :: 0 <= k < |r| ==> r[k] != "" && r[k] in texts
    ensures forall j :: 0 <= j < |texts| && texts[j] != "" ==> texts[j] in r
    ensures forall k :: 0 <= k < |r| ==> r[k] == texts[NonEmptyPositions(texts)[k]]
  {
    SelectContains(texts, NonEmptyPositions(texts));
    Select(texts, NonEmptyPositions(texts))
  }

  /** How many paragraphs before position `j` have text. */
  function Rank(texts: seq<string>, j: nat): nat
    requires j <= |texts|
  {
    |NonEmptyPositions(texts[..j])|
  }

  /** The positions found in a prefix are the first positions found in the whole. */
  lemma {:induction false} PositionsOfPrefix(texts: seq<string>, m: nat)
    requires m <= |texts|
    ensures var p := NonEmptyPositions(texts[..m]);
      |p| <= |NonEmptyPositions(texts)| && NonEmptyPositions(texts)[..|p|] == p
    decreases |texts| - m
  {
    if m < |texts| {
      var front := texts[..|texts| - 1];
      assert front[..m] == texts[..m];
      PositionsOfPrefix(front, m);
    } else {
      assert texts[..m] == texts;
    }
  }

  /** The rank of a paragraph with text is its index among the paragraphs with text. */
  lemma RankAt(texts: seq<string>, j: nat)
    requires j < |texts| && texts[j] != ""
    ensures Rank(texts, j) < |NonEmptyPositions(texts)|
    ensures NonEmptyPositions(texts)[Rank(texts, j)] == j
  {
    var upTo := texts[..j + 1];
    assert upTo[..j] == texts[..j];
    assert NonEmptyPositions(upTo) == NonEmptyPositions(texts[..j]) + [j];
    PositionsOfPrefix(texts, j + 1);
  }

  /** Conversely, the paragraph at the k-th position with text has rank k. */
  lemma PositionRank(texts: seq<string>, k: nat)
    requires k < |NonEmptyPositions(texts)|
    ensures Rank(texts, NonEmptyPositions(texts)[k]) == k
  {
    var pos := NonEmptyPositions(texts);
    RankAt(texts, pos[k]);
  }

  /** Only which paragraphs are empty decides the positions. */
  lemma {:induction false} PositionsSamePattern(a: seq<string>, b: seq<string>)
    requires |a| == |b|
    requires forall j :: 0 <= j < |a| ==> (a[j] == "" <==> b[j] == "")
    ensures NonEmptyPositions(a) == NonEmptyPositions(b)
  {
    if a != [] {
      PositionsSamePattern(a[..|a| - 1], b[..|b| - 1]);
    }
  }

  /** When no text is empty, every position is listed. */
  lemma {:induction false} PositionsOfNonEmpty(texts: seq<string>)
    requires forall j :: 0 <= j < |texts| ==> texts[j] != ""
    ensures |NonEmptyPositions(texts)| == |texts|
    ensures forall k :: 0 <= k < |texts| ==> NonEmptyPositions(texts)[k] == k
  {
    if texts != [] {
      PositionsOfNonEmpty(texts[..|texts| - 1]);
    }
  }

  /** When every text is empty, no position is listed. */
  lemma {:induction false} PositionsOfEmpty(texts: seq<string>)
    requires forall j :: 0 <= j < |texts| ==> texts[j] == ""
    ensures NonEmptyPositions(texts) == []
  {
    if texts != [] {
      PositionsOfEmpty(texts[..|texts| - 1]);
    }
  }

  /** Every text is kept when none is empty. */
  lemma NonEmptyTextsOfNonEmpty(texts: seq<string>)
    requires forall j :: 0 <= j < |texts| ==> texts[j] != ""
    ensures NonEmptyTexts(texts) == texts
  {
    PositionsOfNonEmpty(texts);
  }

  // ----- Context windows ----------------------------------------------------------------------

  /**
   * The paragraphs just before index `i`: the `min(i, ContextWindow)` nearest ones, in order,
   * ending right before `i` (none for the first paragraph).
   */
  function BeforeWindow<T>(paragraphs: seq<T>, i: nat): (w: seq<T>)
    requires i < |paragraphs|
    ensures |w| == Min(i, ContextWindow)
    ensures w == paragraphs[i - |w|..i]
  {
    if i == 0 then [] else paragraphs[Max(0, i - ContextWindow)..i]
  }

  /**
   * The paragraphs just after index `i`: the `min(N - 1 - i, ContextWindow)` nearest ones, in
   * order, starting right after `i` (none for the last paragraph).
   */
  function AfterWindow<T>(paragraphs: seq<T>, i: nat): (w: seq<T>)
    requires i < |paragraphs|
    ensures |w| == Min(|paragraphs| - 1 - i, ContextWindow)
    ensures w == paragraphs[i + 1..i + 1 + |w|]
  {
    if i == |paragraphs| - 1 then [] else paragraphs[i + 1..Min(|paragraphs|, i + ContextWindow + 1)]
  }

  /**
   * The two windows and the paragraph itself tile the neighbourhood of `i` that extends
   * `ContextWindow` paragraphs both ways: paragraph `i` is in neither window.
   */
  lemma WindowsAroundParagraph<T>(paragraphs: seq<T>, i: nat)
    requires i < |paragraphs|
    ensures BeforeWindow(paragraphs, i) + [paragraphs[i]] + AfterWindow(paragraphs, i)
      == paragraphs[Max(0, i - ContextWindow)..Min(|paragraphs|, i + ContextWindow + 1)]
  {
    var lo, hi := Max(0, i - ContextWindow), Min(|paragraphs|, i + ContextWindow + 1);
    assert paragraphs[lo..hi] == paragraphs[lo..i] + [paragraphs[i]] + paragraphs[i + 1..hi];
  }

  /**
   * The text of a context window: the non-empty texts of its paragraphs joined by single spaces.
   * It is empty exactly when no paragraph of the window has text.
   */
  function ContextText(texts: seq<string>): (r: string)
    ensures r == "" <==> forall j :: 0 <= j < |texts| ==> texts[j] == ""
  {
    var kept := NonEmptyTexts(texts);
    JoinEmptyIff(kept, " ");
    Join(kept, " ")
  }

  /** For a window of paragraphs with text, nothing is filtered: the texts joined by spaces. */
  lemma ContextTextOfNonEmpty(texts: seq<string>)
    ensures (forall j :: 0 <= j < |texts| ==> texts[j] != "") ==> ContextText(texts) == Join(texts, " ")
  {
    if forall j :: 0 <= j < |texts| ==> texts[j] != "" {
      NonEmptyTextsOfNonEmpty(texts);
    }
  }

  /**
   * Every paragraph's text followed by a line break, in document order, empty ones included: the
   * texts' characters and one line break per paragraph.
   */
  function ToneSourceText(texts: seq<string>): (r: string)
    ensures |r| == TotalLength(texts) + |texts|
  {
    if texts == [] then ""
    else
      var n := |texts| - 1;
      TotalLengthSnoc(texts[..n], texts[n]);
      assert texts[..n] + [texts[n]] == texts;
      ToneSourceText(texts[..n]) + texts[n] + "\n"
  }

  /** The text of a prefix of the paragraphs is a prefix of the text of all. */
  lemma {:induction false} ToneSourceTextPrefix(texts: seq<string>, m: nat)
    requires m <= |texts|
    ensures var t := ToneSourceText(texts[..m]);
      |t| <= |ToneSourceText(texts)| && ToneSourceText(texts)[..|t|] == t
    decreases |texts| - m
  {
    if m < |texts| {
      var front := texts[..|texts| - 1];
      assert front[..m] == texts[..m];
      ToneSourceTextPrefix(front, m);
    } else {
      assert texts[..m] == texts;
    }
  }

  /**
   * The k-th paragraph's text appears in the tone-source text right after the earlier paragraphs'
   * lines, and is followed by a line break.
   */
  lemma ToneSourceTextAt(texts: seq<string>, k: nat)
    requires k < |texts|
    ensures var off := |ToneSourceText(texts[..k])|; var all := ToneSourceText(texts);
      off + |texts[k]| < |all| && all[off..off + |texts[k]|] == texts[k] && all[off + |texts[k]|] == '\n'
  {
    var upTo := texts[..k + 1];
    assert upTo[..k] == texts[..k];
    var before := ToneSourceText(texts[..k]);
    assert ToneSourceText(upTo) == before + texts[k] + "\n";
    ToneSourceTextPrefix(texts, k + 1);
    var all := ToneSourceText(texts);
    assert all[..|before| + |texts[k]| + 1] == before + texts[k] + "\n";
    assert all[|before|..|before| + |texts[k]|] == (before + texts[k] + "\n")[|before|..|before| + |texts[k]|];
  }

  // ----- Merging ------------------------------------------------------------------------------

  /** Every listed position has its index in the list as its rank. */
  lemma PositionRanks(texts: seq<string>)
    ensures forall k :: 0 <= k < |NonEmptyPositions(texts)| ==> Rank(texts, NonEmptyPositions(texts)[k]) == k
  {
    forall k | 0 <= k < |NonEmptyPositions(texts)| {
      PositionRank(texts, k);
    }
  }

  /**
   * The clone after the merge: the k-th paragraph with text gets its text replaced by the k-th
   * reply; a paragraph without text stays as it was.
   */
  function Merged(doc: seq<ParagraphValue>, contents: seq<string>): (r: seq<ParagraphValue>)
    requires |contents| == |NonEmptyPositions(TextsOf(doc))|
    ensures |r| == |doc|
    ensures forall k :: 0 <= k < |contents| ==>
      r[NonEmptyPositions(TextsOf(doc))[k]] == Replaced(doc[NonEmptyPositions(TextsOf(doc))[k]], contents[k])
    ensures forall j :: 0 <= j < |doc| && RunsText(doc[j]) == "" ==> r[j] == doc[j]
  {
    var texts := TextsOf(doc);
    PositionRanks(texts);
    seq(|doc|, j requires 0 <= j < |doc| =>
      if texts[j] != "" then
        RankAt(texts, j);
        Replaced(doc[j], contents[Rank(texts, j)])
      else doc[j])
  }

  /** With non-empty replies, a paragraph has text after the merge exactly when it had before. */
  lemma MergedTextAt(doc: seq<ParagraphValue>, contents: seq<string>, j: nat)
    requires |contents| == |NonEmptyPositions(TextsOf(doc))|
    requires forall k :: 0 <= k < |contents| ==> contents[k] != ""
    requires j < |doc|
    ensures var texts, after := TextsOf(doc), TextsOf(Merged(doc, contents));
      (texts[j] == "" <==> after[j] == "")
      && (texts[j] != "" ==> Rank(texts, j) < |contents| && after[j] == contents[Rank(texts, j)])
  {
    var texts := TextsOf(doc);
    if texts[j] != "" {
      RankAt(texts, j);
      ReplacedText(doc[j], contents[Rank(texts, j)]);
    }
  }

  /**
   * When every reply is non-empty, the paragraphs with text after the merge are exactly the
   * replies, in order.
   */
  lemma MergedTexts(doc: seq<ParagraphValue>, contents: seq<string>)
    requires |contents| == |NonEmptyPositions(TextsOf(doc))|
    requires forall k :: 0 <= k < |contents| ==> contents[k] != ""
    ensures NonEmptyTexts(TextsOf(Merged(doc, contents))) == contents
  {
    var texts := TextsOf(doc);
    var after := TextsOf(Merged(doc, contents));
    forall j | 0 <= j < |doc|
      ensures texts[j] == "" <==> after[j] == ""
    {
      MergedTextAt(doc, contents, j);
    }
    PositionsSamePattern(texts, after);
    var pos := NonEmptyPositions(texts);
    forall k | 0 <= k < |contents|
      ensures NonEmptyTexts(after)[k] == contents[k]
    {
      PositionRank(texts, k);
      MergedTextAt(doc, contents, pos[k]);
    }
  }

  /** The merge of a clone without text changes nothing. */
  lemma MergedWithoutText(doc: seq<ParagraphValue>)
    requires forall j :: 0 <= j < |doc| ==> RunsText(doc[j]) == ""
    ensures NonEmptyPositions(TextsOf(doc)) == []
    ensures Merged(doc, []) == doc
  {
    PositionsOfEmpty(TextsOf(doc));
  }

  /** The merge after its first `n` replies are written back, in index order. */
  ghost function PartlyMerged(doc: seq<ParagraphValue>, contents: seq<string>, n: nat): seq<ParagraphValue>
    requires n <= |contents|
  {
    var texts := TextsOf(doc);
    seq(|doc|, j requires 0 <= j < |doc| =>
      if texts[j] != "" && Rank(texts, j) < n then Replaced(doc[j], contents[Rank(texts, j)]) else doc[j])
  }

  /** Writing back reply `n` touches only the paragraph with text of rank `n`, still untouched. */
  lemma PartlyMergedStep(doc: seq<ParagraphValue>, contents: seq<string>, n: nat)
    requires |contents| == |NonEmptyPositions(TextsOf(doc))|
    requires n < |contents|
    ensures var j := NonEmptyPositions(TextsOf(doc))[n];
      PartlyMerged(doc, contents, n)[j] == doc[j]
      && PartlyMerged(doc, contents, n + 1) == PartlyMerged(doc, contents, n)[j := Replaced(doc[j], contents[n])]
  {
    var j := NonEmptyPositions(TextsOf(doc))[n];
    PositionRank(TextsOf(doc), n);
    var a, b := PartlyMerged(doc, contents, n), PartlyMerged(doc, contents, n + 1);
    var c := a[j := Replaced(doc[j], contents[n])];
    forall i | 0 <= i < |doc| && i != j
      ensures b[i] == a[i]
    {
      PartlyMergedElsewhere(doc, contents, n, i);
    }
    assert b == c;
  }

  /** Writing back reply `n` leaves every paragraph but the one of rank `n` alone. */
  lemma PartlyMergedElsewhere(doc: seq<ParagraphValue>, contents: seq<string>, n: nat, i: nat)
    requires |contents| == |NonEmptyPositions(TextsOf(doc))|
    requires n < |contents| && i < |doc| && i != NonEmptyPositions(TextsOf(doc))[n]
    ensures PartlyMerged(doc, contents, n + 1)[i] == PartlyMerged(doc, contents, n)[i]
  {
    var texts := TextsOf(doc);
    if texts[i] != "" {
      RankAt(texts, i);
    }
  }

  /** With every reply written back, the partial merge is the merge. */
  lemma PartlyMergedComplete(doc: seq<ParagraphValue>, contents: seq<string>)
    requires |contents| == |NonEmptyPositions(TextsOf(doc))|
    ensures PartlyMerged(doc, contents, |contents|) == Merged(doc, contents)
  {
    var texts := TextsOf(doc);
    forall j | 0 <= j < |doc| && texts[j] != ""
      ensures Rank(texts, j) < |contents|
    {
      RankAt(texts, j);
    }
  }

  /**
   * One step of the write-back loop: `replaceParagraphText` on the document's paragraph `j`, which
   * changes that paragraph's content and no other paragraph, of this document or of `other`.
   */
  method WriteBack(doc: Document, j: nat, text: string, other: Document)
    requires doc.Valid() && j < |doc.paragraphs| && doc.paragraphs[j] !in other.paragraphs
    modifies doc.paragraphs[j]
    ensures doc.paragraphs == old(doc.paragraphs)
    ensures doc.Snapshot() == old(doc.Snapshot())[j := Replaced(old(doc.Snapshot())[j], text)]
    ensures other.Snapshot() == old(other.Snapshot())
  {
    var paragraph := doc.paragraphs[j];
    ReplaceParagraphText(paragraph, text);
    forall i | 0 <= i < |doc.paragraphs| && i != j
      ensures doc.paragraphs[i].runs == old(doc.paragraphs[i].runs)
    {
      assert doc.paragraphs[i] != paragraph;
    }
    forall i | 0 <= i < |other.paragraphs|
      ensures other.paragraphs[i].runs == old(other.paragraphs[i].runs)
    {
      assert other.paragraphs[i] != paragraph;
    }
  }

  // ----- Prompt templates ---------------------------------------------------------------------

  // The templates are the service's text blocks with their incidental indentation stripped, as
  // Java does. Each line is spelled as a few short literals joined by `+`, because the verifier's
  // cost grows much faster than the length of a single string literal; the proofs about requests
  // work on the template pieces and never need the full text.

  /** The tone-classification template: the text around its two `%s` conversions. */
  function ExtractTonePromptTemplate(): (t: seq<string>)
    ensures |t| == 3 && t[2] == "'\n "
  {
    [
      "     Respond " + "only with one " + "of the " + "following words " + "[",
      "], that best " + "describes the " + "tone of the " + "text \n" +
      "     that " + "follows and " + "nothing else: '",
      "'\n" +
      " "
    ]
  }

  /** The rewrite template: the text around its four `%s` conversions. */
  function ApplyTonePromptTemplate(): (t: seq<string>)
    ensures |t| == 5 && t[1] == "\n     Text: " && t[2] == " [" && t[3] == "] "
  {
    [
      "     This is a " + "STRICT text " + "transformation " + "task, not a " + "conversational " +
      "task. Follow " + "the " + "instructions " + "exactly.\n" +
      "\n" +
      "     Rewrite " + "ONLY the text " + "between " + "[brackets] in " + "the specified " +
      "tone. Use the " + "surrounding " + "text to " + "understand the " + "context but " +
      "don't use it in " + "the output.\n" +
      "\n" +
      "     Tone: ",
      "\n" +
      "     Text: ",
      " [",
      "] ",
      "\n" +
      "\n" +
      "     STRICT " + "OUTPUT RULES:\n" +
      "     1. Output " + "first character " + "must be first " + "character " + "replacing " +
      "bracketed " + "content\n" +
      "     2. Output " + "last character " + "must be last " + "character " + "replacing " +
      "bracketed " + "content\n" +
      "     3. Only " + "modify the text " + "if its tone " + "significantly " + "differs from " +
      "the requested " + "tone; " + "otherwise, " + "leave it " + "unchanged.\n" +
      "     4. No " + "greetings, " + "context, or " + "other text " + "permitted\n" +
      "     5. No " + "explanations\n" +
      "     6. Direct " + "replacement " + "only\n" +
      "     7. No " + "Guesswork. If " + "context is " + "unclear, return " + "the original " +
      "text.\n" +
      "     8. If no " + "text present in " + "brackets, " + "return a single " + "space " +
      "character.\n" +
      "     9. All " + "abbreviations " + "must remain " + "EXACTLY as they " + "appear. Never " +
      "expand " + "abbreviations.\n" +
      "\n" +
      "     Example " + "input: \"This is " + "a test. [The " + "test is hard]. " + "The test has " +
      "concluded.\"\n" +
      "     Example " + "output: The " + "test is " + "difficult\n" +
      "\n" +
      "     FAILURE " + "CONDITIONS:\n" +
      "     - Any " + "output starting " + "before bracket " + "content\n" +
      "     - Any " + "output " + "continuing " + "after bracket " + "content\n" +
      "     - Any " + "explanatory " + "text\n" +
      "     - " + "Transforming " + "ambiguous text\n" +
      " "
    ]
  }

  /**
   * A template with four conversions filled twice gives the same text only when the first values
   * start alike, and, for the same first value, only when the third values are the same.
   */
  lemma FilledInjective(template: seq<string>, n1: string, n2: string, before: string, x1: string, x2: string, after: string)
    requires |template| == 5
    requires StringFormat(template, [n1, before, x1, after]) == StringFormat(template, [n2, before, x2, after])
    requires n1 != [] && n2 != []
    ensures n1[0] == n2[0]
    ensures n1 == n2 ==> x1 == x2
  {
    StringFormat4(template, n1, before, x1, after);
    StringFormat4(template, n2, before, x2, after);
    var p := StringFormat(template, [n1, before, x1, after]);
    var h := |template[0]|;
    assert p[h] == n1[0];
    assert p[h] == n2[0];
    if n1 == n2 {
      var q := StringFormat(template, [n2, before, x2, after]);
      var k := |template[0] + n1 + template[1] + before + template[2]|;
      assert |x1| == |x2|;
      forall i | 0 <= i < |x1| ensures x1[i] == x2[i] {
        assert p[k + i] == x1[i];
        assert q[k + i] == x2[i];
      }
    }
  }

  lemma NameInjectiveAtFirst(t1: StylisticTone, t2: StylisticTone)
    requires Name(t1)[0] == Name(t2)[0]
    ensures t1 == t2
  {
  }

  /** A window of one paragraph reads as that paragraph's text. */
  lemma SingletonContext(t: string)
    ensures ContextText([t]) == t
  {
    if t != "" {
      ContextTextOfNonEmpty([t]);
    }
  }

  // ----- The service -------------------------------------------------------------------------

  /** The tone-management service for word-processing documents, built around a text generator. */
  class DocxToneManagementService {
    /** The text generator: prompt in, reply out. */
    const llm: string -> string
    const extractTonePromptTemplate: seq<string>
    const applyTonePromptTemplate: seq<string>

    constructor (llm: string -> string)
      ensures this.llm == llm
      ensures extractTonePromptTemplate == ExtractTonePromptTemplate()
      ensures applyTonePromptTemplate == ApplyTonePromptTemplate()
      ensures Valid()
    {
      this.llm := llm;
      extractTonePromptTemplate := ExtractTonePromptTemplate();
      applyTonePromptTemplate := ApplyTonePromptTemplate();
    }

    /**
     * Each template has as many gaps as the values formatted into it, and the rewrite template
     * puts the text to rewrite between " [" and "] ", after the tone and the text before.
     */
    predicate Valid()
    {
      |extractTonePromptTemplate| == 3 && |applyTonePromptTemplate| == 5
      && applyTonePromptTemplate[1] == "\n     Text: "
      && applyTonePromptTemplate[2] == " [" && applyTonePromptTemplate[3] == "] "
    }

    /** The tone-classification request: the valid names, then the document's text. */
    function ExtractTonePrompt(toneNames: string, text: string): string
      requires Valid()
    {
      StringFormat(extractTonePromptTemplate, [toneNames, text])
    }

    /** The rewrite request: the tone's name, the text before, the text to rewrite, the text after. */
    function ApplyTonePrompt(tone: StylisticTone, before: string, text: string, after: string): string
      requires Valid()
    {
      StringFormat(applyTonePromptTemplate, [Name(tone), before, text, after])
    }

    /**
     * For the service's own template, the classification request lists the names in square
     * brackets and quotes the document text in single quotes.
     */
    lemma ExtractTonePromptShape(toneNames: string, text: string)
      requires Valid() && extractTonePromptTemplate == ExtractTonePromptTemplate()
      ensures ExtractTonePrompt(toneNames, text) ==
        extractTonePromptTemplate[0] + toneNames + extractTonePromptTemplate[1] + text + "'\n "
      ensures extractTonePromptTemplate[0][|extractTonePromptTemplate[0]| - 1] == '['
      ensures extractTonePromptTemplate[1][0] == ']' && extractTonePromptTemplate[1][|extractTonePromptTemplate[1]| - 1] == '\''
    {
      StringFormat2(extractTonePromptTemplate, toneNames, text);
    }

    /**
     * With the context texts fixed, a rewrite request determines its tone and the text to rewrite:
     * different tones or different paragraph texts never produce the same request.
     */
    lemma ApplyTonePromptInjective(t1: StylisticTone, t2: StylisticTone, before: string, x1: string, x2: string, after: string)
      requires Valid()
      ensures ApplyTonePrompt(t1, before, x1, after) == ApplyTonePrompt(t2, before, x2, after) <==> t1 == t2 && x1 == x2
    {
      if ApplyTonePrompt(t1, before, x1, after) == ApplyTonePrompt(t2, before, x2, after) {
        FilledInjective(applyTonePromptTemplate, Name(t1), Name(t2), before, x1, x2, after);
        NameInjectiveAtFirst(t1, t2);
      }
    }

    /** The tone-classification request determines the document text it carries. */
    lemma ExtractTonePromptInjective(names: string, text1: string, text2: string)
      requires Valid()
      ensures ExtractTonePrompt(names, text1) == ExtractTonePrompt(names, text2) <==> text1 == text2
    {
      if ExtractTonePrompt(names, text1) == ExtractTonePrompt(names, text2) {
        var t := extractTonePromptTemplate;
        StringFormat2(t, names, text1);
        StringFormat2(t, names, text2);
        var k := |t[0] + names + t[1]|;
        var p, q := ExtractTonePrompt(names, text1), ExtractTonePrompt(names, text2);
        assert |text1| == |text2|;
        forall i | 0 <= i < |text1| ensures text1[i] == text2[i] {
          assert p[k + i] == text1[i];
          assert q[k + i] == text2[i];
        }
      }
    }

    /**
     * `extractTone`: the document's paragraph texts, each followed by a line break, are sent once
     * with the list of valid tone names, and the raw reply is parsed as a tone.
     */
    method ExtractTone(file: Document) returns (tone: Result<StylisticTone, Exception>)
      requires Valid()
      ensures tone == FromString(Some(llm(ExtractTonePrompt(ToCommaSeparatedString(), ToneSourceText(TextsOf(file.Snapshot()))))))
    {
      ghost var texts := TextsOf(file.Snapshot());
      var paragraphs := "";
      for i := 0 to |file.paragraphs|
        invariant paragraphs == ToneSourceText(texts[..i])
      {
        assert texts[..i + 1][..i] == texts[..i];
        paragraphs := paragraphs + file.paragraphs[i].Text() + "\n";
      }
      assert texts[..|file.paragraphs|] == texts;
      var prompt := ExtractTonePrompt(ToCommaSeparatedString(), paragraphs);
      var textResult := llm(prompt);
      tone := FromString(Some(textResult));
    }

    /**
     * `rewriteParagraph(paragraph, tone, String before, String after)`: the reply to one request,
     * which reads: the instructions, the tone's name, the text before, the text to rewrite in
     * square brackets, the text after, and the output rules.
     */
    function RewriteParagraph(text: string, tone: StylisticTone, before: string, after: string): (r: string)
      requires Valid()
      ensures r == llm(applyTonePromptTemplate[0] + Name(tone) + "\n     Text: " + before + " [" + text + "] " + after + applyTonePromptTemplate[4])
    {
      StringFormat4(applyTonePromptTemplate, Name(tone), before, text, after);
      llm(ApplyTonePrompt(tone, before, text, after))
    }

    /**
     * `rewriteParagraph(paragraph, tone, List before, List after)`: the windows become context
     * texts; windows of paragraphs with text are sent as their texts joined by single spaces.
     */
    function RewriteParagraphWithContext(text: string, tone: StylisticTone, before: seq<string>, after: seq<string>): (r: string)
      requires Valid()
      ensures (forall j :: 0 <= j < |before| ==> before[j] != "") && (forall j :: 0 <= j < |after| ==> after[j] != "")
        ==> r == RewriteParagraph(text, tone, Join(before, " "), Join(after, " "))
    {
      ContextTextOfNonEmpty(before);
      ContextTextOfNonEmpty(after);
      RewriteParagraph(text, tone, ContextText(before), ContextText(after))
    }

    /**
     * `rewriteParagraph(paragraph, tone, XWPFParagraph before, XWPFParagraph after)`: a missing
     * neighbour gives "". It sends what the window overload sends for windows holding at most
     * the one neighbour.
     */
    function RewriteParagraphBetween(text: string, tone: StylisticTone, before: Option<string>, after: Option<string>): (r: string)
      requires Valid()
      ensures r == RewriteParagraphWithContext(text, tone,
        if before.Some? then [before.value] else [], if after.Some? then [after.value] else [])
    {
      var previousParagraphText := if before.Some? then before.value else "";
      var nextParagraphText := if after.Some? then after.value else "";
      SingletonContext(previousParagraphText);
      SingletonContext(nextParagraphText);
      RewriteParagraph(text, tone, previousParagraphText, nextParagraphText)
    }

    /**
     * `rewriteParagraph(paragraph, tone)`: no context at all, which is what empty windows and two
     * missing neighbours send.
     */
    function RewriteParagraphAlone(text: string, tone: StylisticTone): (r: string)
      requires Valid()
      ensures r == RewriteParagraphWithContext(text, tone, [], [])
      ensures r == RewriteParagraphBetween(text, tone, None, None)
    {
      RewriteParagraph(text, tone, "", "")
    }

    /**
     * The replies for the paragraphs with text, by index: the text to rewrite comes from the
     * clone, both context windows from the original.
     */
    function Rewrites(tone: StylisticTone, originalParagraphs: seq<string>, toneShiftedParagraphs: seq<string>): (contents: seq<string>)
      requires Valid()
      requires |toneShiftedParagraphs| == |originalParagraphs|
      ensures |contents| == |originalParagraphs|
    {
      seq(|originalParagraphs|, i requires 0 <= i < |originalParagraphs| =>
        RewriteParagraphWithContext(toneShiftedParagraphs[i], tone,
          BeforeWindow(originalParagraphs, i), AfterWindow(originalParagraphs, i)))
    }

    /**
     * The content of the clone after `applyTone`, given the content of the original and of the
     * clone before it: as many paragraphs as the clone, and the empty ones unchanged.
     */
    function TransposedContent(tone: StylisticTone, original: seq<ParagraphValue>, clone: seq<ParagraphValue>): (r: seq<ParagraphValue>)
      requires Valid()
      requires |NonEmptyPositions(TextsOf(original))| == |NonEmptyPositions(TextsOf(clone))|
      ensures |r| == |clone|
      ensures forall j :: 0 <= j < |clone| && RunsText(clone[j]) == "" ==> r[j] == clone[j]
    {
      Merged(clone, Rewrites(tone, NonEmptyTexts(TextsOf(original)), NonEmptyTexts(TextsOf(clone))))
    }

    /**
     * `applyTone` writes one reply into each clone paragraph with text: the k-th one is asked for
     * with the clone's k-th text and the original's windows around its k-th paragraph with text,
     * and the paragraph keeps its first run's formatting.
     */
    lemma TransposedParagraphs(tone: StylisticTone, original: seq<ParagraphValue>, clone: seq<ParagraphValue>)
      requires Valid()
      requires |NonEmptyPositions(TextsOf(original))| == |NonEmptyPositions(TextsOf(clone))|
      ensures forall k :: 0 <= k < |NonEmptyPositions(TextsOf(clone))| ==>
        var j := NonEmptyPositions(TextsOf(clone))[k];
        var originalParagraphs := NonEmptyTexts(TextsOf(original));
        TransposedContent(tone, original, clone)[j]
          == [Run(RewriteParagraph(RunsText(clone[j]), tone,
                    ContextText(BeforeWindow(originalParagraphs, k)),
                    ContextText(AfterWindow(originalParagraphs, k))),
                  clone[j][0].format)]
    {
    }

    /** With no paragraph with text, no request is made and the clone is returned unchanged. */
    lemma TransposedWithoutText(tone: StylisticTone, original: seq<ParagraphValue>, clone: seq<ParagraphValue>)
      requires Valid()
      requires forall j :: 0 <= j < |original| ==> RunsText(original[j]) == ""
      requires forall j :: 0 <= j < |clone| ==> RunsText(clone[j]) == ""
      ensures |NonEmptyPositions(TextsOf(original))| == |NonEmptyPositions(TextsOf(clone))|
      ensures Rewrites(tone, NonEmptyTexts(TextsOf(original)), NonEmptyTexts(TextsOf(clone))) == []
      ensures TransposedContent(tone, original, clone) == clone
    {
      PositionsOfEmpty(TextsOf(original));
      MergedWithoutText(clone);
    }

    /**
     * When none of the replies is empty (the rewrite prompt asks for a single space in place of
     * nothing), the texts of the paragraphs with text in the result are exactly the replies, in
     * order.
     */
    lemma TransposedTexts(tone: StylisticTone, original: seq<ParagraphValue>, clone: seq<ParagraphValue>)
      requires Valid()
      requires |NonEmptyPositions(TextsOf(original))| == |NonEmptyPositions(TextsOf(clone))|
      requires var contents := Rewrites(tone, NonEmptyTexts(TextsOf(original)), NonEmptyTexts(TextsOf(clone)));
        forall k :: 0 <= k < |contents| ==> contents[k] != ""
      ensures NonEmptyTexts(TextsOf(TransposedContent(tone, original, clone)))
        == Rewrites(tone, NonEmptyTexts(TextsOf(original)), NonEmptyTexts(TextsOf(clone)))
    {
      MergedTexts(clone, Rewrites(tone, NonEmptyTexts(TextsOf(original)), NonEmptyTexts(TextsOf(clone))));
    }

    /**
     * When every reply is empty, as the text generator's client answers on a failed request, every
     * paragraph of the result is empty: the paragraphs with text are blanked, without an error.
     */
    lemma TransposedBlankReplies(tone: StylisticTone, original: seq<ParagraphValue>, clone: seq<ParagraphValue>)
      requires Valid()
      requires |NonEmptyPositions(TextsOf(original))| == |NonEmptyPositions(TextsOf(clone))|
      requires var contents := Rewrites(tone, NonEmptyTexts(TextsOf(original)), NonEmptyTexts(TextsOf(clone)));
        forall k :: 0 <= k < |contents| ==> contents[k] == ""
      ensures var r := TransposedContent(tone, original, clone);
        |r| == |clone| && forall j :: 0 <= j < |r| ==> RunsText(r[j]) == ""
    {
      var texts := TextsOf(clone);
      var contents := Rewrites(tone, NonEmptyTexts(TextsOf(original)), NonEmptyTexts(texts));
      var r := TransposedContent(tone, original, clone);
      assert r == Merged(clone, contents);
      forall j | 0 <= j < |r|
        ensures RunsText(r[j]) == ""
      {
        if texts[j] != "" {
          RankAt(texts, j);
          ReplacedText(clone[j], contents[Rank(texts, j)]);
        }
      }
    }

    /**
     * `applyTone`: rewrites the clone `toneShiftedFile` of `file` in `tone`. Both documents'
     * paragraphs with text are listed; each clone paragraph with text gets one reply, computed
     * from its own text and the original's windows; then the replies are written back in index
     * order. The clone must have as many paragraphs with text as the original and share no
     * paragraph object with it.
     */
    method ApplyTone(file: Document, toneShiftedFile: Document, tone: StylisticTone) returns (result: Document)
      requires Valid()
      requires file.Valid() && toneShiftedFile.Valid()
      requires forall j :: 0 <= j < |toneShiftedFile.paragraphs| ==> toneShiftedFile.paragraphs[j] !in file.paragraphs
      requires |NonEmptyPositions(TextsOf(file.Snapshot()))| == |NonEmptyPositions(TextsOf(toneShiftedFile.Snapshot()))|
      modifies toneShiftedFile.paragraphs
      ensures result == toneShiftedFile && result.paragraphs == old(toneShiftedFile.paragraphs)
      ensures result.Snapshot() == TransposedContent(tone, old(file.Snapshot()), old(toneShiftedFile.Snapshot()))
      ensures file.Snapshot() == old(file.Snapshot())
    {
      var original := file.Snapshot();
      var clone := toneShiftedFile.Snapshot();
      var cloneTexts := TextsOf(clone);
      var shiftedPositions := NonEmptyPositions(cloneTexts);
      var originalParagraphs := NonEmptyTexts(TextsOf(original));
      var paragraphContents := Rewrites(tone, originalParagraphs, NonEmptyTexts(cloneTexts));

      for index := 0 to |shiftedPositions|
        invariant toneShiftedFile.paragraphs == old(toneShiftedFile.paragraphs)
        invariant toneShiftedFile.Snapshot() == PartlyMerged(clone, paragraphContents, index)
        invariant file.Snapshot() == original
      {
        var j := shiftedPositions[index];
        assert j < |toneShiftedFile.paragraphs| && toneShiftedFile.paragraphs[j] !in file.paragraphs;
        PartlyMergedStep(clone, paragraphContents, index);
        WriteBack(toneShiftedFile, j, paragraphContents[index], file);
      }
      PartlyMergedComplete(clone, paragraphContents);
      result := toneShiftedFile;
    }
  }
}
