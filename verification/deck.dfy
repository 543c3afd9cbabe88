/**
 * The slide deck that the convert button builds from the raw notes: the
 * notes are cut into blocks at blank lines, the first block becomes a title
 * slide, and every other block becomes a slide with a heading and one text
 * box per line of the formatter's answer for that block.
 *
 * Positions and sizes are percentages of the slide; the font size is in
 * points.
 */
module Deck {
  import opened Strings
  import Prompts

  datatype Style = Style(x: int, y: int, w: int, h: int, fontSize: int)

  /** A text box holding plain text, or a text box holding one bullet. */
  datatype Node = Text(style: Style, content: string) | Bullet(style: Style, content: string)

  datatype Slide = Slide(nodes: seq<Node>)

  datatype Presentation = Presentation(slides: seq<Slide>)

  /** Blocks of the notes are separated by a blank line. */
  const BlockSeparator: string := "\n\n"

  const LineSeparator: string := "\n"

  /** A line that starts with this marker is a bullet (or a "- " heading). */
  const BulletMarker: string := "- "

  /** The single text box of the first slide. */
  const TitleSlideStyle: Style := Style(10, 20, 80, 40, 80)

  /** The heading of every other slide. */
  const HeadingStyle: Style := Style(10, 10, 80, 80, 40)

  /** The body text box for the line with the given index. */
  function BodyStyle(index: nat): Style {
    Style(10, 25 + 10 * index, 80, 65, 20)
  }

  /**
   * `rawText.split("\n\n")`: at least one block, none holding a blank line,
   * and joining them back with a blank line gives the notes unchanged.
   */
  function Blocks(rawText: string): (blocks: seq<string>)
    ensures |blocks| >= 1
    ensures Join(blocks, BlockSeparator) == rawText
    ensures forall b :: b in blocks ==> !Contains(b, BlockSeparator)
  {
    SplitJoin(rawText, BlockSeparator);
    SplitPiecesFree(rawText, BlockSeparator);
    Split(rawText, BlockSeparator)
  }

  /**
   * `text.split("\n")`: at least one line, none holding a newline, and
   * joining them back with newlines gives the text unchanged.
   */
  function Lines(text: string): (lines: seq<string>)
    ensures |lines| >= 1
    ensures Join(lines, LineSeparator) == text
    ensures forall line :: line in lines ==> !Contains(line, LineSeparator)
  {
    SplitJoin(text, LineSeparator);
    SplitPiecesFree(text, LineSeparator);
    Split(text, LineSeparator)
  }

  /**
   * `block.split("\n")[0]`: the longest prefix of the block without a
   * newline; it is the whole block or is followed by a newline.
   */
  function FirstLine(block: string): (line: string)
    ensures line <= block
    ensures forall k :: 0 <= k < |line| ==> line[k] != '\n'
    ensures line == block || block[|line|] == '\n'
  {
    SplitFirst(block, LineSeparator);
    var line := Lines(block)[0];
    NoSeparatorNoNewline(line);
    assert line != block ==> block[|line|] == '\n' by {
      if line != block {
        assert block[|line|..|line| + 1][0] == block[|line|];
      }
    }
    line
  }

  /**
   * `if (line.startsWith("- ")) line = line.slice(2)`: exactly one leading
   * marker is removed when there is one, nothing otherwise.
   */
  function StripBulletMarker(line: string): (r: string)
    ensures StartsWith(line, BulletMarker) ==> BulletMarker + r == line
    ensures !StartsWith(line, BulletMarker) ==> r == line
  {
    if StartsWith(line, BulletMarker) then
      assert line == line[..2] + line[2..];
      line[2..]
    else
      line
  }

  /** The first block: its first line, as it is, in the large centred box. */
  function TitleSlide(block: string): Slide {
    Slide([Text(TitleSlideStyle, FirstLine(block))])
  }

  /** The heading of a later slide: its first line without a bullet marker. */
  function HeadingNode(block: string): Node {
    Text(HeadingStyle, StripBulletMarker(FirstLine(block)))
  }

  /**
   * One line of the formatter's answer at the given position: a bullet
   * without its marker when the line starts with "- ", else the whole line.
   */
  function BodyNode(line: string, index: nat): (n: Node)
    ensures n.style == BodyStyle(index)
    ensures n.Bullet? <==> StartsWith(line, BulletMarker)
    ensures n.Bullet? ==> BulletMarker + n.content == line
    ensures n.Text? ==> n.content == line
  {
    if StartsWith(line, BulletMarker) then
      Bullet(BodyStyle(index), StripBulletMarker(line))
    else
      Text(BodyStyle(index), line)
  }

  /** One text box per line of the formatter's answer, in order. */
  function Body(formatted: string): (nodes: seq<Node>)
    ensures |nodes| == |Lines(formatted)|
  {
    var lines := Lines(formatted);
    seq(|lines|, j requires 0 <= j < |lines| => BodyNode(lines[j], j))
  }

  /** A slide after the first: its heading, then the formatted body. */
  function ContentSlide(block: string, formatted: string): Slide {
    Slide([HeadingNode(block)] + Body(formatted))
  }

  /** The slide for the block at `index`; the first ignores `formatted`. */
  function SlideAt(block: string, index: nat, formatted: string): Slide {
    if index == 0 then TitleSlide(block) else ContentSlide(block, formatted)
  }

  /**
   * The deck for the notes, given the formatter's answer for each block
   * (`bodies[0]` is never used: the first block is not sent to the formatter).
   */
  function Build(rawText: string, bodies: seq<string>): Presentation
    requires |bodies| == |Blocks(rawText)|
  {
    var blocks := Blocks(rawText);
    Presentation(seq(|blocks|, i requires 0 <= i < |blocks| => SlideAt(blocks[i], i, bodies[i])))
  }

  /** The text line a body node was made from. */
  function SourceLine(n: Node): string {
    match n
    case Text(_, content) => content
    case Bullet(_, content) => BulletMarker + content
  }

  /** A string with no occurrence of "\n" holds no newline character. */
  lemma NoSeparatorNoNewline(s: string)
    requires !Contains(s, LineSeparator)
    ensures forall k :: 0 <= k < |s| ==> s[k] != '\n'
  {
    forall k | 0 <= k < |s| ensures s[k] != '\n' {
      assert !OccursAt(s, LineSeparator, k);
      assert s[k..k + 1] == [s[k]];
    }
  }

  /** A newline-free prefix stops at or before any newline of the text. */
  lemma NewlineBoundsPrefix(b: string, f: string, n: nat)
    requires f <= b && n < |b| && b[n] == '\n'
    requires forall k :: 0 <= k < |f| ==> f[k] != '\n'
    ensures |f| <= n
  {
  }

  /**
   * The first line is determined by the block: for a line without a newline
   * followed by a newline and anything, it is that line.
   */
  lemma FirstLineOf(line: string, rest: string)
    requires forall k :: 0 <= k < |line| ==> line[k] != '\n'
    ensures FirstLine(line) == line
    ensures FirstLine(line + "\n" + rest) == line
  {
    var b := line + "\n" + rest;
    var f := FirstLine(b);
    NewlineBoundsPrefix(b, f, |line|);
    assert forall k :: 0 <= k < |line| ==> b[k] == line[k];
    assert b[..|line|] == line;
  }

  /**
   * The first block is the notes up to the leftmost blank line, or all of
   * them when there is none; the other blocks are the blocks of the text after
   * that blank line.
   */
  lemma BlocksFirst(rawText: string)
    ensures var b := Blocks(rawText);
      && b[0] <= rawText
      && (forall j: nat :: j < |b[0]| ==> !OccursAt(rawText, BlockSeparator, j))
      && (b[0] == rawText || OccursAt(rawText, BlockSeparator, |b[0]|))
      && (b[0] != rawText ==> b == [b[0]] + Blocks(rawText[|b[0]| + |BlockSeparator|..]))
  {
    SplitFirst(rawText, BlockSeparator);
  }

  /**
   * A first block without a newline is cut off at the first blank line,
   * and the rest is split on its own.
   */
  lemma {:induction false} BlocksCons(title: string, rest: string)
    requires forall k :: 0 <= k < |title| ==> title[k] != '\n'
    ensures Blocks(title + BlockSeparator + rest) == [title] + Blocks(rest)
  {
    var s := title + BlockSeparator + rest;
    var n := |title|;
    assert OccursAt(s, BlockSeparator, n) by {
      assert s[n..n + 2] == BlockSeparator;
    }
    forall j: nat | j < n ensures !OccursAt(s, BlockSeparator, j) {
      assert s[j] == title[j];
      assert s[j..j + 2][0] == s[j];
    }
    var r := IndexOf(s, BlockSeparator);
    assert r.Some? && r.value == n by {
      if r.None? {
        assert false;
      } else if r.value < n {
        assert false;
      } else if r.value > n {
        assert false;
      }
    }
    assert s[..n] == title;
    assert s[n + 2..] == rest;
  }

  /** A newline-free first line followed by a blank line gives that line and an empty block. */
  lemma TrailingBlankBlock(title: string)
    requires forall k :: 0 <= k < |title| ==> title[k] != '\n'
    ensures Blocks(title + BlockSeparator) == [title, ""]
  {
    BlocksCons(title, "");
    assert title + BlockSeparator + "" == title + BlockSeparator;
  }

  /**
   * One slide per block, in the order of the blocks; slide i depends on
   * block i and the formatter's answer for it alone.
   */
  lemma BuildSlides(rawText: string, bodies: seq<string>)
    requires |bodies| == |Blocks(rawText)|
    ensures var p := Build(rawText, bodies); var blocks := Blocks(rawText);
      && |p.slides| == |blocks|
      && p.slides[0] == TitleSlide(blocks[0])
      && forall i :: 0 < i < |blocks| ==> p.slides[i] == ContentSlide(blocks[i], bodies[i])
  {
  }

  /**
   * The first slide holds one plain text box at the title position, with the
   * first line of the first block, not stripped of a bullet marker.
   */
  lemma TitleSlideShape(block: string)
    ensures var nodes := TitleSlide(block).nodes;
      && |nodes| == 1
      && nodes[0].Text?
      && nodes[0].style == Style(10, 20, 80, 40, 80)
      && nodes[0].content <= block
      && (nodes[0].content == block || block[|nodes[0].content|] == '\n')
      && forall k :: 0 <= k < |nodes[0].content| ==> nodes[0].content[k] != '\n'
  {
  }

  /**
   * The heading of a later slide is its first line with exactly one leading
   * "- " removed when present, else the first line unchanged.
   */
  lemma HeadingShape(block: string)
    ensures var h := HeadingNode(block); var line := FirstLine(block);
      && h.Text?
      && h.style == Style(10, 10, 80, 80, 40)
      && (StartsWith(line, "- ") ==> "- " + h.content == line)
      && (!StartsWith(line, "- ") ==> h.content == line)
  {
  }

  /**
   * The body has one node per line of the formatted answer; node j sits at
   * 25 + 10 j percent, is a bullet exactly when line j starts with "- ",
   * and gives back line j with the marker restored.
   */
  lemma BodyShape(formatted: string)
    ensures var nodes := Body(formatted); var lines := Lines(formatted);
      && |nodes| == |lines|
      && forall j :: 0 <= j < |nodes| ==>
        && nodes[j].style == Style(10, 25 + 10 * j, 80, 65, 20)
        && (nodes[j].Bullet? <==> StartsWith(lines[j], "- "))
        && SourceLine(nodes[j]) == lines[j]
  {
  }

  /** Rejoining the lines the body nodes were made from gives the formatted answer. */
  lemma BodyRoundTrip(formatted: string)
    ensures var nodes := Body(formatted);
      Join(seq(|nodes|, j requires 0 <= j < |nodes| => SourceLine(nodes[j])), "\n") == formatted
  {
    var nodes := Body(formatted);
    var lines := Lines(formatted);
    var back := seq(|nodes|, j requires 0 <= j < |nodes| => SourceLine(nodes[j]));
    assert back == lines by {
      forall j | 0 <= j < |nodes| ensures back[j] == lines[j] {
        assert nodes[j] == BodyNode(lines[j], j);
      }
    }
  }

  /**
   * A later slide has its heading first and then at least one body node, and
   * the vertical positions strictly increase from each node to the next.
   */
  lemma ContentSlideShape(block: string, formatted: string)
    ensures var nodes := ContentSlide(block, formatted).nodes;
      && |nodes| == 1 + |Lines(formatted)| && |nodes| >= 2
      && nodes[0] == HeadingNode(block)
      && nodes[1..] == Body(formatted)
      && forall j, k :: 0 <= j < k < |nodes| ==> nodes[j].style.y < nodes[k].style.y
  {
    var nodes := ContentSlide(block, formatted).nodes;
    assert nodes[1..] == Body(formatted);
    forall j, k | 0 <= j < k < |nodes| ensures nodes[j].style.y < nodes[k].style.y {
      assert nodes[k] == Body(formatted)[k - 1];
      if j > 0 {
        assert nodes[j] == Body(formatted)[j - 1];
      }
    }
  }

  /** An answer without a newline gives a single body node. */
  lemma SingleLineBody(line: string)
    requires forall k :: 0 <= k < |line| ==> line[k] != '\n'
    ensures Body(line) == [BodyNode(line, 0)]
  {
    NoNewlineNoSeparator(line, LineSeparator);
    SplitWithoutSeparator(line, LineSeparator);
  }

  /** An empty answer still gives one, empty, plain text box. */
  lemma EmptyAnswerBody()
    ensures Body("") == [Text(BodyStyle(0), "")]
  {
    SingleLineBody("");
  }

  /**
   * The builder does not look for the no-extra-content marker: an answer
   * that is just the marker is shown as one plain text box holding it.
   */
  lemma MarkerAnswerIsPlainText()
    ensures Body(Prompts.NoExtraContent) == [Text(BodyStyle(0), Prompts.NoExtraContent)]
  {
    var m := Prompts.NoExtraContent;
    assert forall k :: 0 <= k < |m| ==> m[k] != '\n';
    SingleLineBody(m);
    assert m[0] != BulletMarker[0];
  }
}
