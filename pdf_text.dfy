/**
 * Text assembly of `extractTextFromPDF` in src/app/api/analyze/route.ts.
 *
 * The PDF library itself is not modelled: its output is taken as a sequence
 * of pages, each page the sequence of its text items' strings. The handler
 * joins each page's items with one space, appends one line feed, and
 * accumulates the pages in order.
 */
module PdfText {

  /** `Array.prototype.join(sep)` over strings: `[]` joins to `""`. */
  function Join(items: seq<string>, sep: string): string
  {
    if |items| == 0 then ""
    else if |items| == 1 then items[0]
    else items[0] + sep + Join(items[1..], sep)
  }

  /** The text of one page: its items joined by a single space. */
  function PageText(items: seq<string>): string
  {
    Join(items, " ")
  }

  /** What the accumulator holds after the loop has visited `pages` in order. */
  function ExtractedText(pages: seq<seq<string>>): string
  {
    if |pages| == 0 then ""
    else ExtractedText(pages[..|pages| - 1]) + PageText(pages[|pages| - 1]) + "\n"
  }

  /** The accumulation loop of `extractTextFromPDF`, over the pages the library returned. */
  method ExtractTextFromPdf(pages: seq<seq<string>>) returns (fullText: string)
    ensures fullText == ExtractedText(pages)
  {
    fullText := "";
    for i := 0 to |pages|
      invariant fullText == ExtractedText(pages[..i])
    {
      var pageText := Join(pages[i], " ");
      fullText := fullText + pageText + "\n";
      assert pages[..i + 1][..i] == pages[..i];
    }
    assert pages[..|pages|] == pages;
  }

  // ---------------------------------------------------------------------
  // Counting characters

  /** Number of occurrences of `c` in `s`. */
  function Count(c: char, s: string): nat
  {
    if |s| == 0 then 0 else (if s[0] == c then 1 else 0) + Count(c, s[1..])
  }

  /** Occurrences of `c` summed over a list of strings. */
  function CountInItems(c: char, items: seq<string>): nat
  {
    if |items| == 0 then 0 else Count(c, items[0]) + CountInItems(c, items[1..])
  }

  /** Occurrences of `c` summed over every item of every page. */
  function CountInPages(c: char, pages: seq<seq<string>>): nat
  {
    if |pages| == 0 then 0
    else CountInPages(c, pages[..|pages| - 1]) + CountInItems(c, pages[|pages| - 1])
  }

  lemma {:induction false} CountAppend(c: char, a: string, b: string)
    ensures Count(c, a + b) == Count(c, a) + Count(c, b)
  {
    if |a| == 0 {
      assert a + b == b;
    } else {
      assert (a + b)[1..] == a[1..] + b;
      CountAppend(c, a[1..], b);
    }
  }

  /** Joining adds exactly the separator's occurrences, once per gap between items. */
  lemma {:induction false} JoinCount(c: char, items: seq<string>, sep: string)
    ensures Count(c, Join(items, sep))
         == CountInItems(c, items) + (if |items| == 0 then 0 else (|items| - 1) * Count(c, sep))
  {
    if |items| == 0 {
    } else if |items| == 1 {
      assert CountInItems(c, items[1..]) == 0;
    } else {
      JoinCount(c, items[1..], sep);
      CountAppend(c, items[0], sep);
      CountAppend(c, items[0] + sep, Join(items[1..], sep));
    }
  }

  /**
   * The extracted text holds exactly one line feed per page beyond those
   * the items themselves contain.
   */
  lemma {:induction false} ExtractedNewlines(pages: seq<seq<string>>)
    ensures Count('\n', ExtractedText(pages)) == CountInPages('\n', pages) + |pages|
  {
    if |pages| > 0 {
      var init, last := pages[..|pages| - 1], pages[|pages| - 1];
      ExtractedNewlines(init);
      JoinCount('\n', last, " ");
      assert Count('\n', " ") == 0 by { assert " "[1..] == ""; }
      CountAppend('\n', ExtractedText(init), PageText(last));
      CountAppend('\n', ExtractedText(init) + PageText(last), "\n");
      assert Count('\n', "\n") == 1 by { assert "\n"[1..] == ""; }
    }
  }

  /** Zero pages give the empty text; otherwise the text ends with a line feed. */
  lemma ExtractedEnding(pages: seq<seq<string>>)
    ensures |pages| == 0 <==> ExtractedText(pages) == ""
    ensures |pages| > 0 ==> ExtractedText(pages)[|ExtractedText(pages)| - 1] == '\n'
  {
  }

  /** The accumulation distributes over splitting the page list anywhere. */
  lemma {:induction false} ExtractedAppend(a: seq<seq<string>>, b: seq<seq<string>>)
    ensures ExtractedText(a + b) == ExtractedText(a) + ExtractedText(b)
  {
    if |b| == 0 {
      assert a + b == a;
    } else {
      var init := b[..|b| - 1];
      assert (a + b)[..|a + b| - 1] == a + init;
      assert (a + b)[|a + b| - 1] == b[|b| - 1];
      ExtractedAppend(a, init);
    }
  }

  /** Pages read front to back: the first page's text and line feed come first. */
  lemma ExtractedCons(page: seq<string>, rest: seq<seq<string>>)
    ensures ExtractedText([page] + rest) == PageText(page) + "\n" + ExtractedText(rest)
  {
    ExtractedAppend([page], rest);
    assert [page][..0] == [];
  }

  // ---------------------------------------------------------------------
  // Splitting, the inverse of joining

  /** `String.prototype.split` on a one-character separator: `""` splits to `[""]`. */
  function SplitOn(s: string, c: char): (parts: seq<string>)
    ensures |parts| > 0
  {
    if |s| == 0 then [""]
    else
      var rest := SplitOn(s[1..], c);
      if s[0] == c then [""] + rest else [[s[0]] + rest[0]] + rest[1..]
  }

  lemma {:induction false} SplitWithoutSeparator(s: string, c: char)
    requires c !in s
    ensures SplitOn(s, c) == [s]
  {
    if |s| > 0 {
      SplitWithoutSeparator(s[1..], c);
      assert [s[0]] + s[1..] == s;
    }
  }

  lemma {:induction false} SplitAtFirstSeparator(a: string, c: char, b: string)
    requires c !in a
    ensures SplitOn(a + [c] + b, c) == [a] + SplitOn(b, c)
  {
    if |a| == 0 {
      assert a + [c] + b == [c] + b;
      assert ([c] + b)[1..] == b;
    } else {
      assert (a + [c] + b)[1..] == a[1..] + [c] + b;
      SplitAtFirstSeparator(a[1..], c, b);
      assert [a[0]] + a[1..] == a;
    }
  }

  lemma {:induction false} JoinWithoutChar(items: seq<string>, sep: string, c: char)
    requires c !in sep
    requires forall i :: 0 <= i < |items| ==> c !in items[i]
    ensures c !in Join(items, sep)
  {
    if |items| > 1 {
      JoinWithoutChar(items[1..], sep, c);
    }
  }

  /** Splitting a joined list on its one-character separator gives the items back. */
  lemma {:induction false} SplitJoin(items: seq<string>, c: char)
    requires |items| > 0
    requires forall i :: 0 <= i < |items| ==> c !in items[i]
    ensures SplitOn(Join(items, [c]), c) == items
  {
    if |items| == 1 {
      SplitWithoutSeparator(items[0], c);
    } else {
      SplitJoin(items[1..], c);
      SplitAtFirstSeparator(items[0], c, Join(items[1..], [c]));
      assert [items[0]] + items[1..] == items;
    }
  }

  /** The page texts, one per page, in order. */
  function PageTexts(pages: seq<seq<string>>): (texts: seq<string>)
    ensures |texts| == |pages|
    ensures forall i :: 0 <= i < |pages| ==> texts[i] == PageText(pages[i])
  {
    if |pages| == 0 then [] else [PageText(pages[0])] + PageTexts(pages[1..])
  }

  /**
   * When no item contains a line feed, splitting the extracted text on line
   * feeds recovers every page's text in order, followed by the empty string
   * that the final line feed leaves.
   */
  lemma {:induction false} SplitExtractedText(pages: seq<seq<string>>)
    requires forall p, i :: 0 <= p < |pages| && 0 <= i < |pages[p]| ==> '\n' !in pages[p][i]
    ensures SplitOn(ExtractedText(pages), '\n') == PageTexts(pages) + [""]
  {
    if |pages| == 0 {
    } else {
      var page, rest := pages[0], pages[1..];
      assert [page] + rest == pages;
      ExtractedCons(page, rest);
      JoinWithoutChar(page, " ", '\n');
      SplitExtractedText(rest);
      SplitAtFirstSeparator(PageText(page), '\n', ExtractedText(rest));
      assert PageTexts(pages) == [PageText(page)] + PageTexts(rest);
    }
  }
}
