/**
  The block structure of the two Word exporters: `create_docx_from_text` in
  app_enginex.py and `EnginexExporter.create_pupr_word` in export_enginex.py.
  Both walk the stripped lines of the reply and emit one block per non-blank
  line after a title heading, but they map headings to different levels and
  treat bullets differently.
 */
module WordExport {
  import opened Strings
  import opened Options

  datatype Style = Normal | ListBullet | ListNumber

  /** A python-docx block: `add_heading(text, level)` or
      `add_paragraph(text, style)`. Level 0 is the document title. */
  datatype Block = Heading(level: nat, text: string) | Paragraph(text: string, style: Style)

  /** Which of the two exporters classifies the lines. */
  datatype Exporter = Chat | Pupr

  const ChatTitle := "Laporan Output ENGINEX"

  function PuprTitle(project: string): string {
    "Laporan Analisis: " + project
  }

  predicate IsDigit(c: char) {
    '0' <= c <= '9'
  }

  /** How many decimal digits `s` starts with. */
  function LeadingDigits(s: string): (n: nat)
    ensures n <= |s|
    ensures forall i :: 0 <= i < n ==> IsDigit(s[i])
    ensures n < |s| ==> !IsDigit(s[n])
  {
    if |s| > 0 && IsDigit(s[0]) then 1 + LeadingDigits(s[1..]) else 0
  }

  /** `re.match(r'^\d+\.', s)`: one or more digits, then a period. */
  predicate IsNumbered(s: string) {
    var n := LeadingDigits(s);
    1 <= n < |s| && s[n] == '.'
  }

  predicate IsBullet(clean: string) {
    StartsWith(clean, "- ") || StartsWith(clean, "* ")
  }

  /** The block `create_docx_from_text` emits for one stripped line: `## `
      is matched first and maps to level 2, `### ` to level 3 (each with every
      copy of its marker removed); bullets keep their marker. */
  function ChatBlock(clean: string): Option<Block> {
    if StartsWith(clean, "## ") then Some(Heading(2, ReplaceAll(clean, "## ", "")))
    else if StartsWith(clean, "### ") then Some(Heading(3, ReplaceAll(clean, "### ", "")))
    else if IsBullet(clean) then Some(Paragraph(clean, ListBullet))
    else if clean != "" then Some(Paragraph(clean, Normal))
    else None
  }

  /** The block `create_pupr_word` emits for one stripped line: `### ` is
      matched first and maps to level 2, `## ` to level 1; bullets lose their
      first two characters; numbered lines keep their full text. */
  function PuprBlock(clean: string): Option<Block> {
    if StartsWith(clean, "### ") then Some(Heading(2, ReplaceAll(clean, "### ", "")))
    else if StartsWith(clean, "## ") then Some(Heading(1, ReplaceAll(clean, "## ", "")))
    else if IsBullet(clean) then Some(Paragraph(clean[2..], ListBullet))
    else if IsNumbered(clean) then Some(Paragraph(clean, ListNumber))
    else if clean != "" then Some(Paragraph(clean, Normal))
    else None
  }

  function LineBlock(kind: Exporter, clean: string): Option<Block> {
    match kind
    case Chat => ChatBlock(clean)
    case Pupr => PuprBlock(clean)
  }

  /** The blocks after the title, built line by line in reply order. */
  function Body(kind: Exporter, lines: seq<string>): seq<Block>
    decreases |lines|
  {
    if |lines| == 0 then []
    else
      var rest := Body(kind, lines[..|lines| - 1]);
      match LineBlock(kind, Strip(lines[|lines| - 1]))
      case Some(b) => rest + [b]
      case None => rest
  }

  /** The stripped lines that are not blank, in order. */
  function NonBlank(lines: seq<string>): (r: seq<string>)
    ensures forall k :: 0 <= k < |r| ==> r[k] != ""
    decreases |lines|
  {
    if |lines| == 0 then []
    else
      var rest := NonBlank(lines[..|lines| - 1]);
      var clean := Strip(lines[|lines| - 1]);
      if clean != "" then rest + [clean] else rest
  }

  /** Both exporters skip exactly the blank lines. */
  lemma BlankIffNoBlock(kind: Exporter, clean: string)
    ensures LineBlock(kind, clean).None? <==> clean == ""
  {
  }

  /** One block per non-blank stripped line, in order: block `k` of the body
      is the block of the `k`-th non-blank line. */
  lemma {:induction false} BodyFollowsNonBlank(kind: Exporter, lines: seq<string>)
    ensures |Body(kind, lines)| == |NonBlank(lines)|
    ensures forall k :: 0 <= k < |NonBlank(lines)| ==>
              Some(Body(kind, lines)[k]) == LineBlock(kind, NonBlank(lines)[k])
    decreases |lines|
  {
    if |lines| > 0 {
      var init := lines[..|lines| - 1];
      BodyFollowsNonBlank(kind, init);
      BlankIffNoBlock(kind, Strip(lines[|lines| - 1]));
    }
  }

  /** `create_docx_from_text` over the lines of the reply. */
  function ChatDocument(lines: seq<string>): seq<Block> {
    [Heading(0, ChatTitle)] + Body(Chat, lines)
  }

  /** `create_pupr_word` over the lines of the reply (the letterhead table in
      the page header is not part of the body). */
  function PuprDocument(lines: seq<string>, project: string): seq<Block> {
    [Heading(0, PuprTitle(project))] + Body(Pupr, lines)
  }

  /** The chat Word export is the title heading followed by exactly one block
      per non-blank stripped line of the reply, in order. */
  lemma ChatDocumentShape(lines: seq<string>)
    ensures var d := ChatDocument(lines);
      && |d| == 1 + |NonBlank(lines)|
      && d[0] == Heading(0, ChatTitle)
      && forall k :: 0 <= k < |NonBlank(lines)| ==>
           Some(d[k + 1]) == ChatBlock(NonBlank(lines)[k])
  {
    BodyFollowsNonBlank(Chat, lines);
  }

  /** The PUPR report body is its title heading followed by exactly one block
      per non-blank stripped line of the reply, in order. */
  lemma PuprDocumentShape(lines: seq<string>, project: string)
    ensures var d := PuprDocument(lines, project);
      && |d| == 1 + |NonBlank(lines)|
      && d[0] == Heading(0, PuprTitle(project))
      && forall k :: 0 <= k < |NonBlank(lines)| ==>
           Some(d[k + 1]) == PuprBlock(NonBlank(lines)[k])
  {
    BodyFollowsNonBlank(Pupr, lines);
  }

  /** The two exporters put the same headings one level apart: a `## ` line
      is level 2 in the chat export and level 1 in the PUPR report, a `### `
      line level 3 and level 2, with the same heading text. */
  lemma HeadingLevelsDiffer(clean: string)
    requires StartsWith(clean, "## ") || StartsWith(clean, "### ")
    ensures ChatBlock(clean).Some? && ChatBlock(clean).value.Heading?
    ensures PuprBlock(clean).Some? && PuprBlock(clean).value.Heading?
    ensures PuprBlock(clean).value.level + 1 == ChatBlock(clean).value.level
    ensures PuprBlock(clean).value.text == ChatBlock(clean).value.text
  {
    if StartsWith(clean, "### ") {
      assert clean[..3] == "###";
    }
  }

  /** Removing a marker from the front of a text that holds no further copy
      of it leaves exactly that text. */
  lemma RemoveLeadingMarker(marker: string, x: string)
    requires |marker| > 0 && !Contains(x, marker)
    ensures ReplaceAll(marker + x, marker, "") == x
  {
    var s := marker + x;
    assert s[..|marker|] == marker && s[|marker|..] == x;
    assert ReplaceAll(s, marker, "") == "" + ReplaceAll(x, marker, "");
    ReplaceAbsent(x, marker, "");
  }

  /** A heading marker is removed together with the space after it; a heading
      whose text has no further marker keeps that text unchanged. */
  lemma HeadingText(x: string)
    ensures !Contains(x, "## ") ==> ChatBlock("## " + x) == Some(Heading(2, x))
    ensures !Contains(x, "## ") ==> PuprBlock("## " + x) == Some(Heading(1, x))
    ensures !Contains(x, "### ") ==> PuprBlock("### " + x) == Some(Heading(2, x))
  {
    var s2 := "## " + x;
    var s3 := "### " + x;
    assert s2[..3] == "## ";
    assert s3[..4] == "### ";
    assert !StartsWith(s2, "### ") by {
      assert s2[2] == ' ';
    }
    if !Contains(x, "## ") {
      RemoveLeadingMarker("## ", x);
    }
    if !Contains(x, "### ") {
      RemoveLeadingMarker("### ", x);
    }
  }

  /** Bullets: the chat export keeps `- `/`* ` in the text, the PUPR report
      drops those two characters; both use the bullet style. */
  lemma BulletText(clean: string)
    requires IsBullet(clean)
    ensures ChatBlock(clean) == Some(Paragraph(clean, ListBullet))
    ensures PuprBlock(clean) == Some(Paragraph(clean[2..], ListBullet))
    ensures clean[..2] + clean[2..] == clean
  {
    assert !StartsWith(clean, "## ") && !StartsWith(clean, "### ") by {
      assert clean[0] == '-' || clean[0] == '*';
    }
  }

  /** A numbered line (`12. text`) is a numbered item with its full text in
      the PUPR report and a plain paragraph in the chat export. */
  lemma NumberedLine(clean: string)
    requires IsNumbered(clean)
    ensures PuprBlock(clean) == Some(Paragraph(clean, ListNumber))
    ensures ChatBlock(clean) == Some(Paragraph(clean, Normal))
  {
    assert IsDigit(clean[0]);
    assert !StartsWith(clean, "## ") && !StartsWith(clean, "### ") && !IsBullet(clean) by {
      assert clean[0] != '#' && clean[0] != '-' && clean[0] != '*';
    }
  }
}
