/** Rendered output: a line is a sequence of (style, text) spans or a
    key/value row, and a viewer's answer is a label with lines, a decline,
    or a fault (the Python viewer raised). Also the truncation trailer and
    the plain-text body builder that every text-like viewer uses. */
module Lines {
  import opened PyStr

  /** The style tags the viewers attach; the renderer never interprets them. */
  datatype Style = Plain | TextStyle | Highlight | KeyStyle | Offset | HeaderStyle

  datatype Span = Span(style: Style, text: string)

  /** One urwid widget: a text made of spans, or one row of a key/value table. */
  datatype Line =
    | Spans(spans: seq<Span>)
    | KeyVal(key: string, keyStyle: Style, val: string, valStyle: Style)

  /** What a viewer gives back: `(kind label, lines)`, `None`, or an exception. */
  datatype ViewResult = Ok(kind: string, lines: seq<Line>) | Decline | Fault(trace: string)

  function TextLine(s: string): Line {
    Spans([Span(TextStyle, s)])
  }

  const BlankLine: Line := Spans([Span(Plain, "")])

  /** "... <size> of data not shown. Press f to load all data." */
  function Notice(size: string): Line {
    Spans([Span(Highlight, "... " + size + " of data not shown. Press "),
           Span(KeyStyle, "f"),
           Span(Highlight, " to load all data.")])
  }

  function TextLines(ls: seq<string>): (r: seq<Line>)
    ensures |r| == |ls|
    ensures forall i :: 0 <= i < |ls| ==> r[i] == TextLine(ls[i])
  {
    seq(|ls|, i requires 0 <= i < |ls| => TextLine(ls[i]))
  }

  /** The lines `trailer` appends for a body of clen bytes shown under `limit`;
      prettySize is the size formatter. */
  function TrailerLines(prettySize: int -> string, clen: int, limit: int): seq<Line>
  {
    var rem := clen - limit;
    if rem > 0 then [BlankLine, Notice(prettySize(rem))] else []
  }

  /** The truncation accounting: appending the trailer leaves the lines alone
      exactly when nothing was cut off; otherwise it keeps them as a prefix and
      adds a blank line and a notice for the clen - limit bytes not shown. */
  lemma TrailerAccounting(prettySize: int -> string, clen: int, txt: seq<Line>, limit: int)
    ensures txt + TrailerLines(prettySize, clen, limit) == txt <==> clen <= limit
    ensures (txt + TrailerLines(prettySize, clen, limit))[..|txt|] == txt
    ensures clen > limit ==>
              txt + TrailerLines(prettySize, clen, limit)
              == txt + [BlankLine, Notice(prettySize(clen - limit))]
  {
    if clen > limit {
      assert |txt + TrailerLines(prettySize, clen, limit)| == |txt| + 2;
    }
  }

  /** A Python list of widgets that code appends to in place. */
  class TextBuffer {
    var lines: seq<Line>

    constructor ()
      ensures lines == []
    {
      lines := [];
    }

    method Append(l: Line)
      modifies this
      ensures lines == old(lines) + [l]
    {
      lines := lines + [l];
    }
  }

  /** `trailer(clen, txt, limit)`: appends the notice to the caller's list. */
  method Trailer(clen: int, txt: TextBuffer, limit: int, prettySize: int -> string)
    modifies txt
    ensures txt.lines == old(txt.lines) + TrailerLines(prettySize, clen, limit)
  {
    var rem := clen - limit;
    if rem > 0 {
      txt.Append(BlankLine);
      txt.Append(Notice(prettySize(rem)));
    }
  }

  /** The body `_view_text` builds: one text line per line of the cleaned
      content, then the trailer for a body of `total` bytes. */
  function ViewText(cleanBin: string -> string, prettySize: int -> string,
                    content: string, total: int, limit: int): seq<Line>
  {
    TextLines(SplitLines(cleanBin(content))) + TrailerLines(prettySize, total, limit)
  }

  /** `_view_text`: appends a line widget per line, then the trailer. */
  method ViewTextLoop(cleanBin: string -> string, prettySize: int -> string,
                      content: string, total: int, limit: int) returns (r: seq<Line>)
    ensures r == ViewText(cleanBin, prettySize, content, total, limit)
  {
    var txt := new TextBuffer();
    var ls := SplitLines(cleanBin(content));
    for i := 0 to |ls|
      invariant txt.lines == TextLines(ls[..i])
    {
      txt.Append(TextLine(ls[i]));
    }
    assert ls[..|ls|] == ls;
    Trailer(total, txt, limit, prettySize);
    r := txt.lines;
  }

  /** The shape of a text body: a line per line of the cleaned text and a
      trailer exactly when `total` exceeds the limit. */
  lemma ViewTextShape(cleanBin: string -> string, prettySize: int -> string,
                      content: string, total: int, limit: int)
    ensures var ls := SplitLines(cleanBin(content));
            var r := ViewText(cleanBin, prettySize, content, total, limit);
            |r| == |ls| + (if total > limit then 2 else 0) &&
            (forall i :: 0 <= i < |ls| ==> r[i] == TextLine(ls[i])) &&
            (total > limit ==> r[|ls|] == BlankLine && r[|ls| + 1] == Notice(prettySize(total - limit)))
  {
  }
}
