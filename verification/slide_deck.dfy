/**
  The slide structure built by `EnginexExporter.create_pupr_pptx` in
  export_enginex.py: a title slide carrying the project name, then one
  bullet slide per stripped line starting with `## ` or `### `; the other
  non-blank lines become body paragraphs of the latest bullet slide, and the
  ones before the first heading are dropped.
 */
module SlideDeck {
  import opened Strings
  import opened Seqs

  /** A body paragraph and its indentation level. */
  datatype Para = Para(text: string, level: nat)

  /** A bullet slide (layout 1): its title and its body paragraphs. */
  datatype Slide = Slide(title: string, body: seq<Para>)

  /** The whole presentation: the title slide (layout 0) and the bullet
      slides after it. */
  datatype Deck = Deck(title: string, subtitle: string, slides: seq<Slide>)

  const Subtitle := "Laporan Analisis Teknis & Rekomendasi\nDisusun oleh ENGINEX Ultimate"

  predicate IsSlideHeading(clean: string) {
    StartsWith(clean, "## ") || StartsWith(clean, "### ")
  }

  /** `clean_line.replace('#', '').strip()`. */
  function SlideTitle(clean: string): string {
    Strip(ReplaceAll(clean, "#", ""))
  }

  /** `clean_line.replace('*', '').replace('-', '').strip()`. */
  function BodyText(clean: string): string {
    Strip(ReplaceAll(ReplaceAll(clean, "*", ""), "-", ""))
  }

  /** The level the source gives a body paragraph: 1 when the line starts
      with two spaces, else 0. */
  function ParaLevel(clean: string): nat {
    if StartsWith(clean, "  ") then 1 else 0
  }

  /** What a stripped line is to the slide builder: a heading that opens a
      slide with this title, a body paragraph, or a blank line. */
  datatype LineKind = Heading(title: string) | Body(para: Para) | Blank

  /** The branch of the loop a stripped line takes. */
  function Kind(clean: string): LineKind {
    if IsSlideHeading(clean) then Heading(SlideTitle(clean))
    else if clean != "" then Body(Para(BodyText(clean), ParaLevel(clean)))
    else Blank
  }

  /** The kinds of the stripped lines, in order. */
  function Kinds(lines: seq<string>): (ks: seq<LineKind>)
    ensures |ks| == |lines|
    ensures forall k :: 0 <= k < |lines| ==> ks[k] == Kind(Strip(lines[k]))
  {
    seq(|lines|, k requires 0 <= k < |lines| => Kind(Strip(lines[k])))
  }

  /** What one line does to the bullet slides built so far: a heading adds a
      slide, a paragraph goes to the latest slide (and is dropped while there
      is none), a blank line does nothing. */
  function Step(slides: seq<Slide>, kind: LineKind): seq<Slide> {
    match kind
    case Heading(t) => slides + [Slide(t, [])]
    case Body(p) =>
      if |slides| > 0 then
        var last := slides[|slides| - 1];
        slides[..|slides| - 1] + [Slide(last.title, last.body + [p])]
      else slides
    case Blank => slides
  }

  /** The bullet slides after lines of the given kinds. */
  function Build(ks: seq<LineKind>): seq<Slide>
    decreases |ks|
  {
    if |ks| == 0 then [] else Step(Build(ks[..|ks| - 1]), ks[|ks| - 1])
  }

  /** The bullet slides after the given lines, in order. */
  function Slides(lines: seq<string>): seq<Slide> {
    Build(Kinds(lines))
  }

  /** `create_pupr_pptx` over the lines of the reply. */
  function CreatePuprPptx(lines: seq<string>, project: string): Deck {
    Deck(project, Subtitle, Slides(lines))
  }

  /** How many of the kinds are headings. */
  function CountHeadings(ks: seq<LineKind>): nat
    decreases |ks|
  {
    if |ks| == 0 then 0
    else CountHeadings(ks[..|ks| - 1]) + (if ks[|ks| - 1].Heading? then 1 else 0)
  }

  /** How many stripped lines start a slide. */
  function HeadingCount(lines: seq<string>): nat {
    CountHeadings(Kinds(lines))
  }

  /** The titles the heading lines give, in order. */
  function HeadingTitles(ks: seq<LineKind>): seq<string>
    decreases |ks|
  {
    if |ks| == 0 then []
    else HeadingTitles(ks[..|ks| - 1]) + (if ks[|ks| - 1].Heading? then [ks[|ks| - 1].title] else [])
  }

  /** The paragraphs among the kinds, in order. */
  function ParasOf(ks: seq<LineKind>): seq<Para>
    decreases |ks|
  {
    if |ks| == 0 then []
    else ParasOf(ks[..|ks| - 1]) + (if ks[|ks| - 1].Body? then [ks[|ks| - 1].para] else [])
  }

  /** The body paragraphs of the non-blank lines among `ls`, in order. */
  function Paras(ls: seq<string>): seq<Para> {
    ParasOf(Kinds(ls))
  }

  // ----- the builder, over line kinds -----

  lemma {:induction false} BuildCount(ks: seq<LineKind>)
    ensures |Build(ks)| == CountHeadings(ks)
    decreases |ks|
  {
    if |ks| > 0 {
      BuildCount(ks[..|ks| - 1]);
    }
  }

  lemma {:induction false} BuildTitles(ks: seq<LineKind>)
    ensures |Build(ks)| == |HeadingTitles(ks)|
    ensures forall k :: 0 <= k < |Build(ks)| ==> Build(ks)[k].title == HeadingTitles(ks)[k]
    decreases |ks|
  {
    if |ks| > 0 {
      BuildTitles(ks[..|ks| - 1]);
    }
  }

  lemma BuildSnoc(ks: seq<LineKind>, x: LineKind)
    ensures Build(ks + [x]) == Step(Build(ks), x)
    ensures CountHeadings(ks + [x]) == CountHeadings(ks) + (if x.Heading? then 1 else 0)
    ensures ParasOf(ks + [x]) == ParasOf(ks) + (if x.Body? then [x.para] else [])
  {
    assert (ks + [x])[..|ks|] == ks;
  }

  /** With no heading in `a`, the lines of `a` reach no slide. */
  lemma {:induction false} BuildDropsLeading(a: seq<LineKind>, b: seq<LineKind>)
    requires CountHeadings(a) == 0
    ensures Build(a + b) == Build(b)
    decreases |b|
  {
    if |b| == 0 {
      assert a + b == a;
      BuildCount(a);
    } else {
      var init, x := b[..|b| - 1], b[|b| - 1];
      assert a + b == (a + init) + [x];
      assert b == init + [x];
      BuildDropsLeading(a, init);
      BuildSnoc(a + init, x);
      BuildSnoc(init, x);
    }
  }

  /** Kinds without a heading add their paragraphs to the last slide. */
  lemma {:induction false} BuildSegment(pre: seq<LineKind>, seg: seq<LineKind>)
    requires |Build(pre)| > 0 && CountHeadings(seg) == 0
    ensures var s := Build(pre); var last := s[|s| - 1];
      Build(pre + seg) == s[..|s| - 1] + [Slide(last.title, last.body + ParasOf(seg))]
    decreases |seg|
  {
    var s := Build(pre);
    var last := s[|s| - 1];
    if |seg| == 0 {
      assert pre + seg == pre;
      assert last.body + [] == last.body;
      assert s == s[..|s| - 1] + [last];
    } else {
      var init, x := seg[..|seg| - 1], seg[|seg| - 1];
      assert seg == init + [x];
      assert pre + seg == (pre + init) + [x];
      BuildSnoc(init, x);
      BuildSegment(pre, init);
      BuildSnoc(pre + init, x);
      var t := Build(pre + init);
      assert t[..|t| - 1] == s[..|s| - 1];
      assert t[|t| - 1] == Slide(last.title, last.body + ParasOf(init));
      if x.Body? {
        assert last.body + ParasOf(init) + [x.para] == last.body + ParasOf(seg);
      } else {
        assert x.Blank?;
        assert ParasOf(seg) == ParasOf(init);
      }
    }
  }

  /** Later lines never change a slide before the last one. */
  lemma {:induction false} BuildEarlierStay(a: seq<LineKind>, c: seq<LineKind>)
    requires |Build(a)| > 0
    ensures |Build(a + c)| >= |Build(a)|
    ensures Build(a + c)[..|Build(a)| - 1] == Build(a)[..|Build(a)| - 1]
    decreases |c|
  {
    if |c| == 0 {
      assert a + c == a;
    } else {
      var init, x := c[..|c| - 1], c[|c| - 1];
      assert a + c == (a + init) + [x];
      BuildEarlierStay(a, init);
      BuildSnoc(a + init, x);
      var before := Build(a + init);
      var n := |Build(a)| - 1;
      assert Step(before, x)[..|before| - 1] == before[..|before| - 1];
      assert Step(before, x)[..n] == Step(before, x)[..|before| - 1][..n];
      assert before[..n] == before[..|before| - 1][..n];
    }
  }

  /** A heading closes every slide before it. */
  lemma BuildHeadingFreezes(a: seq<LineKind>, b: seq<LineKind>)
    requires |b| > 0 && b[0].Heading?
    ensures |Build(a + b)| > |Build(a)|
    ensures Build(a + b)[..|Build(a)|] == Build(a)
  {
    var a' := a + [b[0]];
    BuildSnoc(a, b[0]);
    assert a + b == a' + b[1..];
    BuildEarlierStay(a', b[1..]);
    assert Build(a')[..|Build(a')| - 1] == Build(a);
  }

  /** The slide a heading opens holds the paragraphs up to the next heading. */
  lemma BuildSection(ks: seq<LineKind>, p: nat, q: nat)
    requires p < q <= |ks| && ks[p].Heading?
    requires CountHeadings(ks[p + 1..q]) == 0
    requires q == |ks| || ks[q].Heading?
    ensures var k := CountHeadings(ks[..p]);
      k < |Build(ks)| && Build(ks)[k] == Slide(ks[p].title, ParasOf(ks[p + 1..q]))
  {
    var a, seg, upto := ks[..p], ks[p + 1..q], ks[..q];
    var k := CountHeadings(a);
    var started := Slide(ks[p].title, []);
    var section := Slide(ks[p].title, ParasOf(seg));
    var pre := a + [ks[p]];
    BuildCount(a);
    BuildSnoc(a, ks[p]);
    var s := Build(pre);
    assert s == Build(a) + [started];
    Snoc(Build(a), started);
    assert s[..|s| - 1] == Build(a) && s[|s| - 1] == started;
    BuildSegment(pre, seg);
    assert [] + ParasOf(seg) == ParasOf(seg);
    SliceAround(ks, p, q);
    assert upto == pre + seg;
    assert Build(upto) == Build(a) + [section];
    Snoc(Build(a), section);
    if q < |ks| {
      TakeDrop(ks, q);
      BuildHeadingFreezes(upto, ks[q..]);
      PrefixIndex(Build(ks), Build(upto), k);
    } else {
      assert upto == ks;
    }
  }

  // ----- properties of the deck -----

  lemma KindsSlice(lines: seq<string>, i: nat, j: nat)
    requires i <= j <= |lines|
    ensures Kinds(lines[i..j]) == Kinds(lines)[i..j]
  {
    var l, r := Kinds(lines[i..j]), Kinds(lines)[i..j];
    forall k | 0 <= k < j - i ensures l[k] == r[k] {
      assert lines[i..j][k] == lines[i + k];
    }
  }

  lemma KindsConcat(a: seq<string>, b: seq<string>)
    ensures Kinds(a + b) == Kinds(a) + Kinds(b)
  {
    var ab := a + b;
    KindsSlice(ab, 0, |a|);
    KindsSlice(ab, |a|, |ab|);
    assert ab[0..|a|] == a && ab[|a|..|ab|] == b;
    SplitAt(Kinds(ab), |a|);
  }

  /** One bullet slide per heading line. */
  lemma SlideCount(lines: seq<string>)
    ensures |Slides(lines)| == HeadingCount(lines)
  {
    BuildCount(Kinds(lines));
  }

  /** Slide k is titled by the k-th heading line. */
  lemma TitlesAreHeadings(lines: seq<string>)
    ensures |Slides(lines)| == |HeadingTitles(Kinds(lines))|
    ensures forall k :: 0 <= k < |Slides(lines)| ==> Slides(lines)[k].title == HeadingTitles(Kinds(lines))[k]
  {
    BuildTitles(Kinds(lines));
  }

  /** Lines before the first heading are dropped: with no heading in `a`,
      the slides after `a + b` are the slides after `b`. */
  lemma LeadingTextDropped(a: seq<string>, b: seq<string>)
    requires HeadingCount(a) == 0
    ensures Slides(a + b) == Slides(b)
  {
    KindsConcat(a, b);
    BuildDropsLeading(Kinds(a), Kinds(b));
  }

  /** Slide contents: when line `p` is a heading and line `q` the next one
      (or the end), the slide of line `p` (the one after the headings before
      it) is titled by line `p` with its `#` marks removed and holds the
      paragraphs of the non-blank lines strictly between `p` and `q`, in
      order. */
  lemma SlideContents(lines: seq<string>, p: nat, q: nat)
    requires p < q <= |lines|
    requires IsSlideHeading(Strip(lines[p]))
    requires HeadingCount(lines[p + 1..q]) == 0
    requires q == |lines| || IsSlideHeading(Strip(lines[q]))
    ensures var k := HeadingCount(lines[..p]);
      && k < |Slides(lines)|
      && Slides(lines)[k] == Slide(SlideTitle(Strip(lines[p])), Paras(lines[p + 1..q]))
  {
    var ks := Kinds(lines);
    KindsSlice(lines, 0, p);
    KindsSlice(lines, p + 1, q);
    assert lines[0..p] == lines[..p];
    assert ks[0..p] == ks[..p];
    BuildSection(ks, p, q);
  }

  /** Every slide title is its heading line without any `#`, stripped. */
  lemma TitleHasNoHash(clean: string)
    ensures '#' !in SlideTitle(clean)
  {
    RemoveCharContents(clean, '#', '#');
    StripKeeps(ReplaceAll(clean, "#", ""), '#');
  }

  /** Body paragraphs hold no `*` and no `-`. */
  lemma BodyTextHasNoMarks(clean: string)
    ensures '*' !in BodyText(clean) && '-' !in BodyText(clean)
  {
    var r1 := ReplaceAll(clean, "*", "");
    var r2 := ReplaceAll(r1, "-", "");
    RemoveCharContents(clean, '*', '*');
    RemoveCharContents(r1, '-', '*');
    RemoveCharContents(r1, '-', '-');
    StripKeeps(r2, '*');
    StripKeeps(r2, '-');
  }

  predicate WellFormedSlide(s: Slide) {
    && '#' !in s.title
    && forall j :: 0 <= j < |s.body| ==>
         s.body[j].level == 0 && '*' !in s.body[j].text && '-' !in s.body[j].text
  }

  /** A line kind as a stripped line can produce it. */
  predicate WellFormedKind(kind: LineKind) {
    match kind
    case Heading(t) => '#' !in t
    case Body(p) => p.level == 0 && '*' !in p.text && '-' !in p.text
    case Blank => true
  }

  /** Well-formed kinds build well-formed slides. */
  lemma {:induction false} BuildWellFormed(ks: seq<LineKind>)
    requires forall k :: 0 <= k < |ks| ==> WellFormedKind(ks[k])
    ensures forall i :: 0 <= i < |Build(ks)| ==> WellFormedSlide(Build(ks)[i])
    decreases |ks|
  {
    if |ks| > 0 {
      var init, x := ks[..|ks| - 1], ks[|ks| - 1];
      BuildWellFormed(init);
      var s := Build(init);
      if x.Body? && |s| > 0 {
        var last := s[|s| - 1];
        assert WellFormedSlide(last);
        assert WellFormedSlide(Slide(last.title, last.body + [x.para]));
      }
    }
  }

  /** The indentation branch of the source is dead: a stripped line never
      starts with two spaces, so every paragraph sits at level 0. No title
      holds a `#` and no paragraph a `*` or `-`. */
  lemma SlidesWellFormed(lines: seq<string>)
    ensures forall i :: 0 <= i < |Slides(lines)| ==> WellFormedSlide(Slides(lines)[i])
  {
    var ks := Kinds(lines);
    forall k | 0 <= k < |ks| ensures WellFormedKind(ks[k]) {
      KindWellFormed(lines[k]);
    }
    BuildWellFormed(ks);
  }

  /** A line that does not start with two spaces has a well-formed kind. */
  lemma CleanKindWellFormed(clean: string)
    requires !StartsWith(clean, "  ")
    ensures WellFormedKind(Kind(clean))
  {
    if IsSlideHeading(clean) {
      TitleHasNoHash(clean);
    } else if clean != "" {
      BodyTextHasNoMarks(clean);
    }
  }

  lemma KindWellFormed(line: string)
    ensures WellFormedKind(Kind(Strip(line)))
  {
    StripNeverIndented(line);
    CleanKindWellFormed(Strip(line));
  }
}
