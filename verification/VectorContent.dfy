/** Embedding text: a metadata header of at most a quarter of the chunk budget, a newline, the content. */
module VectorContent {
  import opened Options
  import opened Texts

  function Dots(n: nat): (d: string)
    ensures |d| == n
  {
    seq(n, _ => '.')
  }

  /** The first `n` characters and the marker. */
  function Marked(value: string, n: nat): (r: string)
    requires n <= |value|
    ensures |r| == n + 3
  {
    seq(n + 3, k requires 0 <= k < n + 3 => if k < n then value[k] else '.')
  }

  /** Truncates with a "..." marker, right behind the last character kept that is not whitespace. */
  function FitTextToChars(value: string, maxChars: nat): (r: string)
    ensures |r| <= maxChars
  {
    if |value| <= maxChars then value
    else if maxChars <= 3 then Dots(maxChars)
    else Marked(value, InkTo(value, maxChars - 3))
  }

  /** Truncation leaves what fits alone, and otherwise shows the longest beginning that leaves room for the marker,
      give or take whitespace. */
  lemma FitKeepsTheBeginning(value: string, maxChars: nat)
    ensures var r := FitTextToChars(value, maxChars);
      && (r == value <==> |value| <= maxChars)
      && (|value| > maxChars >= 3 ==> exists n: nat ::
        n <= maxChars - 3 && r == value[..n] + "..." && Blank(value[n..maxChars - 3]))
      && (|value| > maxChars && maxChars < 3 ==> r == Dots(maxChars))
  {
    if |value| > maxChars >= 3 {
      var n := InkTo(value, maxChars - 3);
      assert FitTextToChars(value, maxChars) == value[..n] + "...";
    }
  }

  /** Fitting twice is fitting once. */
  lemma FitIsIdempotent(value: string, maxChars: nat)
    ensures FitTextToChars(FitTextToChars(value, maxChars), maxChars) == FitTextToChars(value, maxChars)
  {
    FitKeepsTheBeginning(value, maxChars);
  }

  /** The lines that are present and not blank. */
  function PresentLines(lines: seq<Option<string>>): seq<string> {
    if lines == [] then []
    else
      var rest := PresentLines(lines[1..]);
      if lines[0].Some? && !Blank(lines[0].value) then [lines[0].value] + rest else rest
  }

  /** A quarter of the chunk budget; no budget when the chunk has none. */
  function MetadataBudget(maxChars: Option<nat>): Option<nat> {
    if maxChars.Some? then Some(maxChars.value / 4) else None
  }

  /** The header: present metadata lines, cut to the budget. */
  function MetadataText(lines: seq<Option<string>>, budget: Option<nat>): string {
    var text := Join(PresentLines(lines));
    if budget.Some? then FitTextToChars(text, budget.value) else text
  }

  datatype ChunkLimits = ChunkLimits(maxChars: nat, overlapChars: nat)

  /** A subtraction of unsigned numbers that stops at zero. */
  function Saturating(a: nat, b: nat): nat {
    if a < b then 0 else a - b
  }

  function Max(a: nat, b: nat): nat {
    if a < b then b else a
  }

  function Min(a: nat, b: nat): nat {
    if a < b then a else b
  }

  /** Chunk limits that leave room for the header. */
  function ChunkOptionsForMetadata(maxChars: nat, overlap: nat, lines: seq<Option<string>>): (r: ChunkLimits)
    ensures r.overlapChars < r.maxChars
  {
    var header := MetadataText(lines, MetadataBudget(Some(maxChars)));
    var separator := if header == "" then 0 else 1;
    var left := Max(Saturating(maxChars, |header| + separator), 1);
    ChunkLimits(left, Min(overlap, Saturating(left, 1)))
  }

  /** What is embedded for a fragment whose content is `text`. */
  function VectorText(lines: seq<Option<string>>, text: string, maxChars: Option<nat>): string {
    var header := MetadataText(lines, MetadataBudget(maxChars));
    if header == "" then text else header + "\n" + text
  }

  /** Neither the saturating subtraction nor the lower bound of one ever takes effect, for any budget of at
      least one character. */
  lemma ClampNeverFires(maxChars: nat, overlap: nat, lines: seq<Option<string>>)
    requires maxChars > 0
    ensures var header := MetadataText(lines, MetadataBudget(Some(maxChars)));
      ChunkOptionsForMetadata(maxChars, overlap, lines).maxChars ==
      maxChars - if header == "" then 0 else |header| + 1
    ensures 4 * ChunkOptionsForMetadata(maxChars, overlap, lines).maxChars >= 3 * maxChars - 4
    ensures overlap < ChunkOptionsForMetadata(maxChars, overlap, lines).maxChars ==>
      ChunkOptionsForMetadata(maxChars, overlap, lines).overlapChars == overlap
  {
    FitKeepsTheBeginning(Join(PresentLines(lines)), maxChars / 4);
  }

  /** A window cut to the reduced limit, together with its header, fits the original budget. */
  lemma HeaderAndWindowFit(maxChars: nat, overlap: nat, lines: seq<Option<string>>, window: string)
    requires maxChars > 0
    ensures |window| <= ChunkOptionsForMetadata(maxChars, overlap, lines).maxChars <==>
      |VectorText(lines, window, Some(maxChars))| <= maxChars
  {
    ClampNeverFires(maxChars, overlap, lines);
  }

  /** Without a budget the header is never cut: the embedded text ends with the content and starts with every
      present line. */
  lemma UnboundedHeaderIsWhole(lines: seq<Option<string>>, text: string)
    ensures PresentLines(lines) == [] ==> VectorText(lines, text, None) == text
    ensures PresentLines(lines) != [] ==> VectorText(lines, text, None) == Join(PresentLines(lines)) + "\n" + text
  {
    PresentLinesAreNotBlank(lines);
    if |PresentLines(lines)| > 1 {
      assert Join(PresentLines(lines)) != "";
    }
  }

  lemma {:induction false} PresentLinesAreNotBlank(lines: seq<Option<string>>)
    ensures forall line :: line in PresentLines(lines) <==> Some(line) in lines && !Blank(line)
  {
    if lines == [] {
    } else {
      PresentLinesAreNotBlank(lines[1..]);
      assert lines == [lines[0]] + lines[1..];
    }
  }

  /** The present lines keep their order. */
  lemma {:induction false} PresentLinesInOrder(a: seq<Option<string>>, b: seq<Option<string>>)
    ensures PresentLines(a + b) == PresentLines(a) + PresentLines(b)
  {
    if a == [] {
      assert a + b == b;
    } else {
      PresentLinesInOrder(a[1..], b);
      assert (a + b)[0] == a[0] && (a + b)[1..] == a[1..] + b;
      if a[0].Some? {
        FirstThenRest(a[0].value, PresentLines(a[1..]), PresentLines(b));
      }
    }
  }

  lemma FirstThenRest(line: string, a: seq<string>, b: seq<string>)
    ensures [line] + (a + b) == [line] + a + b
  {
  }

  /** With a budget the header is at most a quarter of it: whole exactly when it fits, otherwise a beginning and a
      marker. */
  lemma HeaderIsAtMostAQuarter(lines: seq<Option<string>>, maxChars: nat)
    ensures
      var whole, header := Join(PresentLines(lines)), MetadataText(lines, MetadataBudget(Some(maxChars)));
      && 4 * |header| <= maxChars
      && (header == whole <==> 4 * |whole| <= maxChars)
      && (4 * |whole| > maxChars >= 12 ==> exists n: nat ::
            n + 3 <= maxChars / 4 && header == whole[..n] + "..." && Blank(whole[n..maxChars / 4 - 3]))
  {
    FitKeepsTheBeginning(Join(PresentLines(lines)), maxChars / 4);
  }

  /** What is embedded is the content, behind the header and a newline when there is a header. */
  lemma EmbeddedTextIs(lines: seq<Option<string>>, text: string, maxChars: nat)
    ensures
      var header := MetadataText(lines, MetadataBudget(Some(maxChars)));
      VectorText(lines, text, Some(maxChars)) == if header == "" then text else header + "\n" + text
    ensures (forall k :: 0 <= k < |lines| ==> lines[k] == None || Blank(lines[k].value)) ==>
      VectorText(lines, text, Some(maxChars)) == text
  {
    PresentLinesAreNotBlank(lines);
    if PresentLines(lines) != [] {
      assert Some(PresentLines(lines)[0]) in lines;
    }
  }
}
