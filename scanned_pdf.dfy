/** `src/scanned_pdf_util.py`: deciding whether a PDF has a text layer, and
    rebuilding a scanned PDF as page images with the OCR text drawn over
    them. A PDF is given by the text each page yields; the OCR engine's
    output per page image is a parameter; the canvas is the sequence of
    drawing operations it receives. */
module ScannedPdf {
  import opened Wrappers
  import opened Text

  /** The page's text holds a character that is not whitespace. */
  predicate HasText(page: string) {
    !AllSpace(page)
  }

  /** `page.get_text().strip()` is truthy exactly when the page has text. */
  lemma HasTextIsStripped(page: string)
    ensures HasText(page) <==> Strip(page) != []
  {
    StripEmpty(page);
  }

  /** What the docstring of `is_scanned_pdf` promises: no page has
      extractable text. */
  predicate Scanned(pages: seq<string>) {
    forall i :: 0 <= i < |pages| ==> !HasText(pages[i])
  }

  /** What `is_scanned_pdf` returns as written: `True` at the first page
      with text, and `None` (falling off the end) when there is none. */
  function ScanVerdict(pages: seq<string>): Option<bool> {
    if exists i :: 0 <= i < |pages| && HasText(pages[i]) then Some(true) else None
  }

  /** `is_scanned_pdf(pdf_path)` as written, over the text of its pages. */
  method IsScannedPdf(pages: seq<string>) returns (r: Option<bool>)
    ensures r == ScanVerdict(pages)
  {
    for i := 0 to |pages|
      invariant forall j :: 0 <= j < i ==> !HasText(pages[j])
    {
      HasTextIsStripped(pages[i]);
      if Strip(pages[i]) != [] {
        return Some(true);
      }
    }
    return None;
  }

  /** The verdict is the opposite of the docstring's: it is truthy exactly
      when the PDF is not scanned, and it is never `False`. */
  lemma {:induction false} VerdictInverted(pages: seq<string>)
    ensures ScanVerdict(pages) == Some(true) <==> !Scanned(pages)
    ensures ScanVerdict(pages) != Some(false)
  {
    if !Scanned(pages) {
      var i :| 0 <= i < |pages| && HasText(pages[i]);
      assert ScanVerdict(pages) == Some(true);
    }
  }

  /** A one-page PDF whose page has text (say "Hello") is a digital PDF,
      yet the function calls it scanned. */
  lemma DigitalPageCounterexample(page: string)
    requires page != [] && !IsSpace(page[0])
    ensures ScanVerdict([page]) == Some(true) && !Scanned([page])
  {
    assert HasText([page][0]);
  }

  /** A one-page PDF whose page has no text (say "") is scanned, yet the
      function returns `None`. */
  lemma BlankPageCounterexample(page: string)
    requires AllSpace(page)
    ensures ScanVerdict([page]) == None && Scanned([page])
  {
    assert !HasText([page][0]);
  }

  /** The check the docstring describes: true exactly when no page has
      text. */
  method IsScannedPdfCorrected(pages: seq<string>) returns (scanned: bool)
    ensures scanned == Scanned(pages)
  {
    for i := 0 to |pages|
      invariant forall j :: 0 <= j < i ==> !HasText(pages[j])
    {
      HasTextIsStripped(pages[i]);
      if Strip(pages[i]) != [] {
        return false;
      }
    }
    return true;
  }

  /** The canvas operations `scanned_to_digital_pdf` issues. */
  datatype Op =
    | DrawImage(page: nat, x: int, y: int, width: int, height: int)
    | SetFont(name: string, size: nat)
    | SetFillColorRGB(red: int, green: int, blue: int)
    | DrawString(x: int, y: int, text: string)
    | ShowPage
    | Save

  /** reportlab's `letter`, in points. */
  const PageWidth := 612
  const PageHeight := 792
  const Font := SetFont("Helvetica", 8)
  /** The first text line's baseline, the line step, the lowest baseline
      allowed before a page break, and the left margin. */
  const Top := 750
  const LineHeight := 12
  const Bottom := 20
  const Margin := 40
  /** Lines that fit between `Top` and `Bottom`: 750, 738, …, 30. */
  const LinesPerPage := 61

  /** The baseline of the `m`-th line of a page image's text. */
  function LineY(m: nat): int {
    Top - LineHeight * (m % LinesPerPage)
  }

  /** The cursor `y` when the loop reaches line `m`: after 61 lines it has
      gone below `Bottom`. */
  function CursorBefore(m: nat): int {
    if m > 0 && m % LinesPerPage == 0 then Top - LineHeight * LinesPerPage else LineY(m)
  }

  /** The cursor goes below `Bottom` exactly before every 61st line after
      the first, is reset there to the line's baseline, and one line step
      later is where the next line expects it. */
  lemma CursorStep(j: nat)
    ensures CursorBefore(j) < Bottom <==> (j > 0 && j % LinesPerPage == 0)
    ensures (if j > 0 && j % LinesPerPage == 0 then Top else CursorBefore(j)) == LineY(j)
    ensures LineY(j) - LineHeight == CursorBefore(j + 1)
  {
    var q, r := j / LinesPerPage, j % LinesPerPage;
    assert j == LinesPerPage * q + r && 0 <= r < LinesPerPage;
    if r == LinesPerPage - 1 {
      assert j + 1 == LinesPerPage * (q + 1);
      assert (j + 1) % LinesPerPage == 0;
    } else {
      assert j + 1 == LinesPerPage * q + (r + 1);
      assert (j + 1) % LinesPerPage == r + 1;
    }
  }

  /** What line `m` adds: a page break (and the font again) before every
      61st line after the first, then the stripped line at its baseline. */
  function LineOps(m: nat, line: string): seq<Op> {
    (if m > 0 && m % LinesPerPage == 0 then [ShowPage, Font] else [])
    + [DrawString(Margin, LineY(m), Strip(line))]
  }

  /** The text layer of one page image, line by line. */
  function TextLayer(lines: seq<string>): seq<Op>
    decreases |lines|
  {
    if lines == [] then []
    else TextLayer(lines[..|lines| - 1]) + LineOps(|lines| - 1, lines[|lines| - 1])
  }

  /** The inner loop of `scanned_to_digital_pdf`, with its moving cursor. */
  method DrawTextLayer(lines: seq<string>) returns (ops: seq<Op>)
    ensures ops == TextLayer(lines)
  {
    ops := [];
    var y := Top;
    for j := 0 to |lines|
      invariant ops == TextLayer(lines[..j])
      invariant y == CursorBefore(j)
    {
      assert lines[..j + 1][..j] == lines[..j];
      assert TextLayer(lines[..j + 1]) == TextLayer(lines[..j]) + LineOps(j, lines[j]);
      CursorStep(j);
      var line := Strip(lines[j]);
      if y < Bottom {
        ops := ops + [ShowPage, Font];
        y := Top;
      }
      ops := ops + [DrawString(Margin, y, line)];
      y := y - LineHeight;
    }
    assert lines[..|lines|] == lines;
  }

  /** Everything one page image contributes: the image over the whole
      page, font and colour, the text layer, and the closing page break. */
  function PageOps(idx: nat, text: string): seq<Op> {
    Page(idx, Split(text, '\n'))
  }

  function Page(idx: nat, lines: seq<string>): seq<Op> {
    [DrawImage(idx, 0, 0, PageWidth, PageHeight), Font, SetFillColorRGB(0, 0, 0)]
    + TextLayer(lines)
    + [ShowPage]
  }

  /** The pages for the OCR texts of the images, in order. */
  function Pages(texts: seq<string>): seq<Op>
    decreases |texts|
  {
    if texts == [] then []
    else Pages(texts[..|texts| - 1]) + PageOps(|texts| - 1, texts[|texts| - 1])
  }

  /** The pages of the first `i + 1` images extend those of the first `i`
      by image `i`'s page. */
  lemma PagesStep(texts: seq<string>, i: nat)
    requires i < |texts|
    ensures Pages(texts[..i + 1]) == Pages(texts[..i]) + Page(i, Split(texts[i], '\n'))
  {
    assert texts[..i + 1][..i] == texts[..i];
  }

  /** The whole drawing: all pages, then `save()`. */
  function Rendering(texts: seq<string>): seq<Op> {
    Pages(texts) + [Save]
  }

  /** `scanned_to_digital_pdf(input_pdf, output_pdf)`: `ocrTexts` holds
      what `pytesseract.image_to_string` read from each page image. */
  method ScannedToDigitalPdf(ocrTexts: seq<string>) returns (ops: seq<Op>)
    ensures ops == Rendering(ocrTexts)
  {
    ops := [];
    for idx := 0 to |ocrTexts|
      invariant ops == Pages(ocrTexts[..idx])
    {
      PagesStep(ocrTexts, idx);
      var head := [DrawImage(idx, 0, 0, PageWidth, PageHeight), Font, SetFillColorRGB(0, 0, 0)];
      var textLines := Split(ocrTexts[idx], '\n');
      var layer := DrawTextLayer(textLines);
      ops := ops + (head + layer + [ShowPage]);
    }
    assert ocrTexts[..|ocrTexts|] == ocrTexts;
    ops := ops + [Save];
  }

  /** The texts drawn, in drawing order. */
  function Strings(ops: seq<Op>): seq<string>
    decreases |ops|
  {
    if ops == [] then []
    else Strings(ops[..|ops| - 1]) + (if ops[|ops| - 1].DrawString? then [ops[|ops| - 1].text] else [])
  }

  lemma {:induction false} StringsAppend(a: seq<Op>, b: seq<Op>)
    ensures Strings(a + b) == Strings(a) + Strings(b)
    decreases |b|
  {
    if b == [] {
      assert a + b == a;
    } else {
      var b' := b[..|b| - 1];
      assert (a + b)[..|a + b| - 1] == a + b';
      StringsAppend(a, b');
    }
  }

  /** The number of page breaks among `ops`. */
  function Breaks(ops: seq<Op>): nat
    decreases |ops|
  {
    if ops == [] then 0
    else Breaks(ops[..|ops| - 1]) + (if ops[|ops| - 1] == ShowPage then 1 else 0)
  }

  lemma {:induction false} BreaksAppend(a: seq<Op>, b: seq<Op>)
    ensures Breaks(a + b) == Breaks(a) + Breaks(b)
    decreases |b|
  {
    if b == [] {
      assert a + b == a;
    } else {
      var b' := b[..|b| - 1];
      assert (a + b)[..|a + b| - 1] == a + b';
      BreaksAppend(a, b');
    }
  }

  /** A run of operations without text or page breaks adds to neither. */
  lemma {:induction false} Quiet(ops: seq<Op>)
    requires forall i :: 0 <= i < |ops| ==> ops[i] != ShowPage && !ops[i].DrawString?
    ensures Breaks(ops) == 0 && Strings(ops) == []
    decreases |ops|
  {
    if ops != [] {
      Quiet(ops[..|ops| - 1]);
    }
  }

  /** The page break `LineOps(m, _)` starts with, if any, and its string. */
  lemma LineOpsParts(m: nat, line: string)
    ensures Breaks(LineOps(m, line)) == (if m > 0 && m % LinesPerPage == 0 then 1 else 0)
    ensures Strings(LineOps(m, line)) == [Strip(line)]
  {
    var draw := DrawString(Margin, LineY(m), Strip(line));
    if m > 0 && m % LinesPerPage == 0 {
      assert LineOps(m, line) == [ShowPage, Font, draw];
      BreakThenDraw(draw);
    } else {
      assert LineOps(m, line) == [draw];
      DrawOnly(draw);
    }
  }

  lemma DrawOnly(draw: Op)
    requires draw.DrawString?
    ensures Breaks([draw]) == 0 && Strings([draw]) == [draw.text]
  {
    assert [draw][..0] == [];
  }

  lemma BreakThenDraw(draw: Op)
    requires draw.DrawString?
    ensures Breaks([ShowPage, Font, draw]) == 1 && Strings([ShowPage, Font, draw]) == [draw.text]
  {
    var ops := [ShowPage, Font, draw];
    assert [ShowPage][..0] == [];
    assert Breaks([ShowPage]) == 1 && Strings([ShowPage]) == [];
    assert [ShowPage, Font][..1] == [ShowPage];
    assert Breaks([ShowPage, Font]) == 1 && Strings([ShowPage, Font]) == [];
    assert ops[..2] == [ShowPage, Font];
  }

  /** The lines as `line.strip()` leaves them, in order. */
  function StrippedLines(lines: seq<string>): (r: seq<string>)
    ensures |r| == |lines|
    ensures forall i :: 0 <= i < |lines| ==> r[i] == Strip(lines[i])
    decreases |lines|
  {
    if lines == [] then []
    else StrippedLines(lines[..|lines| - 1]) + [Strip(lines[|lines| - 1])]
  }

  /** Every OCR line is drawn, stripped, in order, and nothing else is. */
  lemma {:induction false} TextLayerDrawsEveryLine(lines: seq<string>)
    ensures Strings(TextLayer(lines)) == StrippedLines(lines)
    decreases |lines|
  {
    if lines != [] {
      var init := lines[..|lines| - 1];
      var m := |lines| - 1;
      TextLayerDrawsEveryLine(init);
      StringsAppend(TextLayer(init), LineOps(m, lines[m]));
      LineOpsParts(m, lines[m]);
    }
  }

  /** Every line lands on the page: at the left margin, with its baseline
      between 30 and 750 points, never below the 20-point limit. */
  lemma {:induction false} TextLayerOnPage(lines: seq<string>)
    ensures forall op :: op in TextLayer(lines) ==>
      (op == ShowPage || op == Font || (op.DrawString? && op.x == Margin && Bottom < op.y <= Top))
    decreases |lines|
  {
    if lines != [] {
      TextLayerOnPage(lines[..|lines| - 1]);
      var m := |lines| - 1;
      assert 0 <= m % LinesPerPage < LinesPerPage;
    }
  }

  /** One page break per 61 lines: `n` lines take `(n - 1) / 61` breaks
      inside the text layer, so at most 61 lines share a page. */
  lemma {:induction false} TextLayerBreaks(lines: seq<string>)
    ensures Breaks(TextLayer(lines)) == if lines == [] then 0 else (|lines| - 1) / LinesPerPage
    decreases |lines|
  {
    if lines != [] {
      var init := lines[..|lines| - 1];
      var m := |lines| - 1;
      TextLayerBreaks(init);
      var prev := TextLayer(init);
      var last := LineOps(m, lines[m]);
      assert TextLayer(lines) == prev + last;
      BreaksAppend(prev, last);
      LineOpsParts(m, lines[m]);
      if m > 0 {
        PageCountStep(m);
      }
    }
  }

  /** Line `m` starts a new page exactly when `m / 61` steps up. */
  lemma PageCountStep(m: nat)
    requires m > 0
    ensures (m - 1) / LinesPerPage + (if m % LinesPerPage == 0 then 1 else 0) == m / LinesPerPage
  {
    var q, r := m / LinesPerPage, m % LinesPerPage;
    assert m == LinesPerPage * q + r && 0 <= r < LinesPerPage;
    if r == 0 {
      assert m - 1 == LinesPerPage * (q - 1) + (LinesPerPage - 1);
    } else {
      assert m - 1 == LinesPerPage * q + (r - 1);
    }
  }

  /** Each page image takes one page plus one more per 61 OCR lines
      beyond the first. */
  lemma PageBreaks(idx: nat, lines: seq<string>)
    ensures Breaks(Page(idx, lines)) == 1 + (if lines == [] then 0 else (|lines| - 1) / LinesPerPage)
  {
    var head := [DrawImage(idx, 0, 0, PageWidth, PageHeight), Font, SetFillColorRGB(0, 0, 0)];
    var layer := TextLayer(lines);
    var tail := [ShowPage];
    BreaksAppend(head + layer, tail);
    BreaksAppend(head, layer);
    TextLayerBreaks(lines);
    Quiet(head);
    Quiet(tail[..0]);
  }

  /** The canvas pages `n` OCR lines of one image take: the image's own
      page plus one more per 61 lines after the first. */
  function PageSpan(lines: seq<string>): nat {
    1 + (if lines == [] then 0 else (|lines| - 1) / LinesPerPage)
  }

  /** The canvas pages of the whole document, never fewer than the images. */
  function PageTotal(texts: seq<string>): (r: nat)
    ensures r >= |texts|
    decreases |texts|
  {
    if texts == [] then 0
    else PageTotal(texts[..|texts| - 1]) + PageSpan(Split(texts[|texts| - 1], '\n'))
  }

  /** The OCR lines of all page images, stripped, image after image. */
  function DocumentLines(texts: seq<string>): seq<string>
    decreases |texts|
  {
    if texts == [] then []
    else DocumentLines(texts[..|texts| - 1]) + StrippedLines(Split(texts[|texts| - 1], '\n'))
  }

  lemma {:induction false} PagesBreaks(texts: seq<string>)
    ensures Breaks(Pages(texts)) == PageTotal(texts)
    decreases |texts|
  {
    if texts != [] {
      var n := |texts| - 1;
      var init := texts[..n];
      var page := Page(n, Split(texts[n], '\n'));
      assert Pages(texts) == Pages(init) + page;
      PagesBreaks(init);
      BreaksAppend(Pages(init), page);
      PageBreaks(n, Split(texts[n], '\n'));
    }
  }

  lemma {:induction false} PagesStrings(texts: seq<string>)
    ensures Strings(Pages(texts)) == DocumentLines(texts)
    decreases |texts|
  {
    if texts != [] {
      var n := |texts| - 1;
      var init := texts[..n];
      var page := Page(n, Split(texts[n], '\n'));
      assert Pages(texts) == Pages(init) + page;
      PagesStrings(init);
      StringsAppend(Pages(init), page);
      PageStrings(n, Split(texts[n], '\n'));
    }
  }

  /** The whole document takes one `showPage` per image plus one per 61
      OCR lines after each image's first, so at least as many pages as
      images. */
  lemma RenderingBreaks(texts: seq<string>)
    ensures Breaks(Rendering(texts)) == PageTotal(texts) >= |texts|
  {
    PagesBreaks(texts);
    BreaksSaved(Pages(texts));
  }

  /** `save()` closes no page. */
  lemma BreaksSaved(ops: seq<Op>)
    ensures Breaks(ops + [Save]) == Breaks(ops)
  {
    assert (ops + [Save])[..|ops|] == ops;
  }

  /** The whole document draws every image's stripped OCR lines, image
      after image, and no other text. */
  lemma RenderingStrings(texts: seq<string>)
    ensures Strings(Rendering(texts)) == DocumentLines(texts)
  {
    var pages := Pages(texts);
    PagesStrings(texts);
    Quiet([Save]);
    StringsAppend(pages, [Save]);
  }

  /** The OCR lines of a page image are drawn on it in order. */
  lemma PageStrings(idx: nat, lines: seq<string>)
    ensures Strings(Page(idx, lines)) == StrippedLines(lines)
  {
    PageFrame(idx, TextLayer(lines));
    TextLayerDrawsEveryLine(lines);
  }

  /** The image, font and colour before the text layer and the closing
      page break after it add no strings. */
  lemma PageFrame(idx: nat, layer: seq<Op>)
    ensures var head := [DrawImage(idx, 0, 0, PageWidth, PageHeight), Font, SetFillColorRGB(0, 0, 0)];
      Strings(head + layer + [ShowPage]) == Strings(layer)
  {
    var head := [DrawImage(idx, 0, 0, PageWidth, PageHeight), Font, SetFillColorRGB(0, 0, 0)];
    var tail := [ShowPage];
    StringsAppend(head + layer, tail);
    StringsAppend(head, layer);
    Quiet(head);
    Quiet(tail[..0]);
  }

  /** `os.path.splitext`'s search: the index of the last `c` in `s`, or
      -1. */
  function LastIndex(s: string, c: char): (r: int)
    ensures -1 <= r < |s|
    ensures r >= 0 ==> s[r] == c
    ensures forall k :: r < k < |s| ==> s[k] != c
    decreases |s|
  {
    if s == [] then -1
    else if s[|s| - 1] == c then |s| - 1
    else LastIndex(s[..|s| - 1], c)
  }

  /** `os.path.splitext` on a POSIX path: the extension starts at the last
      dot of the last component, unless every character before that dot in
      the component is a dot too (a hidden file such as `.pdf`). */
  function SplitExt(p: string): (r: (string, string))
    ensures r.0 + r.1 == p
    ensures r.1 != [] ==> r.1[0] == '.' && '/' !in r.1 && '.' !in r.1[1..]
  {
    var sep := LastIndex(p, '/');
    var dot := LastIndex(p, '.');
    if dot > sep && NamedBefore(p, sep, dot) then
      assert p[dot..][1..] == p[dot + 1..];
      (p[..dot], p[dot..])
    else (p, [])
  }

  /** Some character between the separator and the dot is not a dot. */
  predicate NamedBefore(p: string, sep: int, dot: int)
    requires -1 <= sep && dot < |p|
  {
    exists k :: sep < k < dot && p[k] != '.'
  }

  /** The output file `main` writes next to the input. */
  function OutputPath(pdfPath: string): string {
    SplitExt(pdfPath).0 + "_digital.pdf"
  }

  /** A path ending in `.pdf` after a name loses the extension. */
  lemma PdfExtensionReplaced(stem: string)
    requires stem != [] && stem[|stem| - 1] != '/' && stem[|stem| - 1] != '.'
    ensures OutputPath(stem + ".pdf") == stem + "_digital.pdf"
  {
    var p := stem + ".pdf";
    var dot := LastIndex(p, '.');
    assert p[|stem|] == '.';
    assert p[|stem| + 1] == 'p' && p[|stem| + 2] == 'd' && p[|stem| + 3] == 'f';
    assert dot == |stem|;
    assert p[|stem| - 1] == stem[|stem| - 1];
    assert LastIndex(p, '/') < |stem| - 1;
    assert p[..dot] == stem;
  }

  /** A last component without a dot after its first character keeps its
      whole name: `.pdf` gives `.pdf_digital.pdf`, `report` gives
      `report_digital.pdf`. */
  lemma NoExtensionKept(p: string)
    requires forall k :: LastIndex(p, '/') < k < |p| && p[k] == '.' ==>
      forall j :: LastIndex(p, '/') < j < k ==> p[j] == '.'
    ensures OutputPath(p) == p + "_digital.pdf"
  {
    var sep := LastIndex(p, '/');
    var dot := LastIndex(p, '.');
    if dot > sep {
      assert sep < dot < |p| && p[dot] == '.';
      assert !NamedBefore(p, sep, dot);
    }
    assert SplitExt(p).0 == p;
  }

  /** `main(pdf_path)`: `fileExists` is `os.path.exists(pdf_path)` and
      `ocrTexts` the OCR output of the page images. A missing file writes
      nothing; otherwise the rendering goes to the `_digital.pdf` path. */
  method Convert(pdfPath: string, fileExists: bool, ocrTexts: seq<string>) returns (written: Option<(string, seq<Op>)>)
    ensures !fileExists ==> written.None?
    ensures fileExists ==> written == Some((OutputPath(pdfPath), Rendering(ocrTexts)))
  {
    if !fileExists {
      return None;
    }
    var outputPdf := SplitExt(pdfPath).0 + "_digital.pdf";
    var ops := ScannedToDigitalPdf(ocrTexts);
    return Some((outputPdf, ops));
  }
}
