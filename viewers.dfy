/** The content viewers whose logic is local: Raw, Hex, JSON, URL-encoded
    form, multipart form and the Auto resolver, with the dispatcher from a
    viewer's tag to its behaviour. The remaining viewers are `env.foreign`. */
module Viewers {
  import opened PyStr
  import opened Lines
  import opened Registry
  import opened Collab

  // ================================================================ Raw, Hex

  /** `ViewRaw`: the first `limit` bytes as text lines, trailer on the full length. */
  function ViewRaw(env: Env, content: string, limit: int): ViewResult
  {
    Ok("Raw", ViewText(env.cleanBin, env.prettySize, Prefix(content, limit), |content|, limit))
  }

  /** Raw never declines or faults: it is labelled "Raw", shows a line per
      line of `content[:limit]`, and adds the trailer keyed on the whole
      content's length. */
  lemma RawIsTotal(env: Env, content: string, limit: int)
    ensures var r := ViewRaw(env, content, limit);
            var ls := SplitLines(env.cleanBin(Prefix(content, limit)));
            r.Ok? && r.kind == "Raw" &&
            |r.lines| == |ls| + (if |content| > limit then 2 else 0) &&
            r.lines[..|ls|] == TextLines(ls) &&
            (|content| > limit ==> r.lines[|ls| + 1] == Notice(env.prettySize(|content| - limit)))
  {
    ViewTextShape(env.cleanBin, env.prettySize, Prefix(content, limit), |content|, limit);
  }

  function HexLine(row: HexRow): Line {
    Spans([Span(Offset, row.offset), Span(Plain, " "), Span(TextStyle, row.hexa),
           Span(Plain, "   "), Span(TextStyle, row.ascii)])
  }

  /** `ViewHex`: a line per hexdump row of `content[:limit]`, then the trailer. */
  function ViewHex(env: Env, content: string, limit: int): ViewResult
  {
    var rows := env.hexdump(Prefix(content, limit));
    Ok("Hex", seq(|rows|, i requires 0 <= i < |rows| => HexLine(rows[i]))
              + TrailerLines(env.prettySize, |content|, limit))
  }

  /** Hex, like Raw, keys its trailer on the length of the whole content. */
  lemma HexTrailer(env: Env, content: string, limit: int)
    ensures var r := ViewHex(env, content, limit);
            var rows := env.hexdump(Prefix(content, limit));
            r.Ok? && r.kind == "Hex" &&
            |r.lines| == |rows| + (if |content| > limit then 2 else 0) &&
            (forall i :: 0 <= i < |rows| ==> r.lines[i] == HexLine(rows[i])) &&
            (|content| > limit ==> r.lines[|rows| + 1] == Notice(env.prettySize(|content| - limit)))
  {
  }

  // ================================================================ JSON

  /** The total length of the lines. */
  function SumLens(ls: seq<string>): nat
  {
    if ls == [] then 0 else SumLens(ls[..|ls| - 1]) + |ls[|ls| - 1]|
  }

  /** How many lines the JSON loop, started at line i, has taken when it
      stops: it takes a line, and stops right after the first line whose
      running length exceeds the limit, or at the end. */
  function StopAt(ls: seq<string>, limit: int, i: nat): (k: nat)
    requires i <= |ls|
    ensures i <= k <= |ls|
    ensures i < |ls| ==> i < k
    ensures forall j :: i < j < k ==> SumLens(ls[..j]) <= limit
    ensures k < |ls| ==> SumLens(ls[..k]) > limit
    decreases |ls| - i
  {
    if i == |ls| then i
    else if SumLens(ls[..i + 1]) > limit then i + 1
    else StopAt(ls, limit, i + 1)
  }

  /** `ViewJSON`. */
  function ViewJson(env: Env, content: string, limit: int): ViewResult
  {
    match env.prettyJson(content)
    case None => Decline
    case Some(ls) =>
      if ls == [] then Decline
      else Ok("JSON", TextLines(ls[..StopAt(ls, limit, 0)]) + TrailerLines(env.prettySize, SumLens(ls), limit))
  }

  /** JSON declines exactly when pretty-printing yields no lines, and never
      faults. Otherwise it shows a non-empty prefix of the pretty lines in
      which every line but the last keeps the running length within the
      limit, stops only once the limit is exceeded, and keys the trailer on
      the length of all the lines, shown or not. */
  lemma JsonTruncation(env: Env, content: string, limit: int)
    ensures var r := ViewJson(env, content, limit);
            var p := env.prettyJson(content);
            (r.Decline? <==> (p.None? || p.value == [])) && !r.Fault? &&
            (r.Ok? ==>
               r.kind == "JSON" &&
               exists k :: 1 <= k <= |p.value| &&
                 r.lines == TextLines(p.value[..k]) + TrailerLines(env.prettySize, SumLens(p.value), limit) &&
                 (forall j :: 0 < j < k ==> SumLens(p.value[..j]) <= limit) &&
                 (k < |p.value| ==> SumLens(p.value[..k]) > limit))
  {
    var p := env.prettyJson(content);
    if p.Some? && p.value != [] {
      var k := StopAt(p.value, limit, 0);
      assert 1 <= k <= |p.value|;
    }
  }

  /** The JSON body as the source builds it: appends line by line, summing
      the lengths, and breaks after the line that takes the sum over the
      limit; then the trailer on the length of all the lines. */
  method JsonBody(lines: seq<string>, limit: int, prettySize: int -> string) returns (body: seq<Line>)
    ensures body == TextLines(lines[..StopAt(lines, limit, 0)]) + TrailerLines(prettySize, SumLens(lines), limit)
  {
    var txt := new TextBuffer();
    var sofar := 0;
    var i := 0;
    while i < |lines|
      invariant 0 <= i <= |lines|
      invariant sofar == SumLens(lines[..i])
      invariant txt.lines == TextLines(lines[..i])
      invariant StopAt(lines, limit, 0) == StopAt(lines, limit, i)
    {
      JsonStep(lines, limit, i);
      sofar := sofar + |lines[i]|;
      txt.Append(TextLine(lines[i]));
      i := i + 1;
      if sofar > limit {
        break;
      }
    }
    JsonDone(lines, limit, i);
    Trailer(SumLens(lines), txt, limit, prettySize);
    body := txt.lines;
  }

  /** One more line: the running sum and the text grow by it, and the
      loop stops after it exactly when the sum then exceeds the limit. */
  lemma JsonStep(ls: seq<string>, limit: int, i: nat)
    requires i < |ls|
    ensures SumLens(ls[..i + 1]) == SumLens(ls[..i]) + |ls[i]|
    ensures TextLines(ls[..i + 1]) == TextLines(ls[..i]) + [TextLine(ls[i])]
    ensures StopAt(ls, limit, i) == if SumLens(ls[..i + 1]) > limit then i + 1 else StopAt(ls, limit, i + 1)
  {
    assert ls[..i + 1][..i] == ls[..i];
  }

  /** Where the loop ends is where StopAt says it stops, and the whole
      text when it runs to the end. */
  lemma JsonDone(ls: seq<string>, limit: int, i: nat)
    requires i <= |ls|
    ensures i == |ls| ==> StopAt(ls, limit, i) == i && ls[..i] == ls
  {
  }

  /** `ViewJSON`: declines when pretty-printing yields nothing. */
  method ViewJsonLoop(env: Env, content: string, limit: int) returns (r: ViewResult)
    ensures r == ViewJson(env, content, limit)
  {
    var pretty := env.prettyJson(content);
    if pretty.None? || pretty.value == [] {
      return Decline;
    }
    var body := JsonBody(pretty.value, limit, env.prettySize);
    r := Ok("JSON", body);
  }

  // ================================================================ URL-encoded

  /** `common.format_keyvals`, kept abstract: one key/value row per pair. */
  function FormatKeyvals(pairs: seq<(string, string)>, keyStyle: Style, valStyle: Style): (r: seq<Line>)
    ensures |r| == |pairs|
    ensures forall i :: 0 <= i < |pairs| ==> r[i] == KeyVal(pairs[i].0, keyStyle, pairs[i].1, valStyle)
  {
    seq(|pairs|, i requires 0 <= i < |pairs| => KeyVal(pairs[i].0, keyStyle, pairs[i].1, valStyle))
  }

  /** `ViewURLEncoded`: declines exactly when decoding yields no pairs, never
      faults, and otherwise shows each decoded pair in order with ":" after
      its key. */
  function ViewUrlEncoded(env: Env, content: string): (r: ViewResult)
    ensures r.Decline? <==> env.urldecode(content) == []
    ensures !r.Fault?
    ensures r.Ok? ==> r.kind == "URLEncoded form" && |r.lines| == |env.urldecode(content)|
    ensures r.Ok? ==> forall i :: 0 <= i < |r.lines| ==>
              r.lines[i] == KeyVal(env.urldecode(content)[i].0 + ":", HeaderStyle,
                                   env.urldecode(content)[i].1, TextStyle)
  {
    var lines := env.urldecode(content);
    if |lines| > 0 then
      Ok("URLEncoded form",
         FormatKeyvals(seq(|lines|, i requires 0 <= i < |lines| => (lines[i].0 + ":", lines[i].1)),
                       HeaderStyle, TextStyle))
    else Decline
  }

  // ================================================================ Multipart

  /** A regular-expression word character (ASCII, no flags). */
  predicate IsWordChar(c: char) {
    'a' <= c <= 'z' || 'A' <= c <= 'Z' || '0' <= c <= '9' || c == '_'
  }

  /** The first index at or after i holding a double quote, or |s|. */
  function QuoteEnd(s: string, i: nat): (e: nat)
    requires i <= |s|
    ensures i <= e <= |s|
    ensures forall j :: i <= j < e ==> s[j] != '"'
    ensures e < |s| ==> s[e] == '"'
    decreases |s| - i
  {
    if i == |s| || s[i] == '"' then i else QuoteEnd(s, i + 1)
  }

  const NameOpen: string := "name=\""

  /** `\bname="([^"]+)"` matches at p with group g: the word boundary
      before 'n' needs a non-word character or the start of the text before
      p, and the group is a non-empty run of non-quotes closed by a quote. */
  predicate MatchesAt(s: string, p: nat, g: string) {
    var n := |NameOpen|;
    |g| > 0 && p + n + |g| < |s| &&
    s[p..p + n] == NameOpen && (p == 0 || !IsWordChar(s[p - 1])) &&
    s[p + n..p + n + |g|] == g && s[p + n + |g|] == '"' &&
    forall i :: 0 <= i < |g| ==> g[i] != '"'
  }

  /** The match of the pattern that starts at p, if there is one: its
      group. The run of non-quotes is greedy, so at most one group fits. */
  function NameAt(s: string, p: nat): (r: Option<string>)
    requires p <= |s|
    ensures r.Some? ==> MatchesAt(s, p, r.value)
  {
    var n := |NameOpen|;
    if p + n <= |s| && s[p..p + n] == NameOpen && (p == 0 || !IsWordChar(s[p - 1])) then
      var e := QuoteEnd(s, p + n);
      if p + n < e < |s| then Some(s[p + n..e]) else None
    else None
  }

  /** NameAt finds a group exactly when the pattern matches there with that
      group; in particular None means no group matches at p. */
  lemma NameAtIff(s: string, p: nat, g: string)
    requires p <= |s|
    ensures MatchesAt(s, p, g) <==> NameAt(s, p) == Some(g)
  {
    var n := |NameOpen|;
    if MatchesAt(s, p, g) {
      var e := QuoteEnd(s, p + n);
      var c := p + n + |g|;
      forall j | p + n <= j < c
        ensures s[j] != '"'
      {
        assert s[j] == s[p + n..c][j - p - n] == g[j - p - n];
      }
      assert e == c;
    }
  }

  /** The leftmost position at or after `from` where the pattern matches. */
  function SearchPos(s: string, from: nat): (r: Option<nat>)
    requires from <= |s|
    ensures r.Some? ==> from <= r.value <= |s| && NameAt(s, r.value).Some?
    ensures r.Some? ==> forall q :: from <= q < r.value ==> NameAt(s, q).None?
    ensures r.None? <==> forall q :: from <= q <= |s| ==> NameAt(s, q).None?
    decreases |s| - from
  {
    if NameAt(s, from).Some? then Some(from)
    else if from == |s| then None
    else SearchPos(s, from + 1)
  }

  /** `rx.search(line)` followed by `match.group(1)`: the group of the
      leftmost match, None when the pattern matches nowhere. */
  function SearchName(s: string): (r: Option<string>)
    ensures r.None? <==> forall q :: 0 <= q <= |s| ==> NameAt(s, q).None?
    ensures r.Some? ==> exists p :: 0 <= p <= |s| && NameAt(s, p) == r &&
                                   forall q :: 0 <= q < p ==> NameAt(s, q).None?
  {
    match SearchPos(s, 0)
    case None => None
    case Some(p) => NameAt(s, p)
  }

  predicate EndsWithColon(k: string) {
    |k| > 0 && k[|k| - 1] == ':'
  }

  /** What one boundary-separated chunk contributes. */
  datatype ChunkOutcome = Skipped | Field(key: string, val: string) | NoBlankLine

  /** One chunk of the multipart body: skipped unless it has two lines and
      its first line does not start with "--" and its second line names the
      field; a named part whose later lines have no blank one makes
      `list.index` raise; otherwise the value is what follows the first
      blank line from the third line on. */
  function ChunkField(env: Env, chunk: string): ChunkOutcome
  {
    PartsField(env, SplitLines(chunk))
  }

  /** ChunkField on the lines of the chunk. */
  function PartsField(env: Env, parts: seq<string>): (r: ChunkOutcome)
    ensures r.Field? ==> EndsWithColon(r.key) && |r.key| >= 2
  {
    if |parts| > 1 && Prefix(parts[0], 2) != "--" then
      match SearchName(parts[1])
      case None => Skipped
      case Some(name) =>
        match IndexOf(parts[2..], "")
        case None => NoBlankLine
        case Some(j) => Field(name + ":", env.cleanBin(Join(parts[3 + j..], "\n")))
    else Skipped
  }

  /** Line j of a part is its first blank line from the third line on. */
  predicate FirstBlank(parts: seq<string>, j: int) {
    2 <= j < |parts| && parts[j] == "" && forall q :: 2 <= q < j ==> parts[q] != ""
  }

  /** The chunk's second line names a field, and its first line does not
      start with "--". */
  predicate NamesField(parts: seq<string>) {
    |parts| >= 2 && Prefix(parts[0], 2) != "--" && SearchName(parts[1]).Some?
  }

  /** A chunk with fewer than two lines, whose first line starts with "--",
      or whose second line names no field is skipped. A named chunk raises
      exactly when no line from the third on is blank. A named chunk whose
      first blank line from the third on is line j gives the key: the
      leftmost name on the second line with ":" added, and the value: the
      cleaned text of the lines after line j, joined with "\n". */
  lemma ChunkFieldShape(env: Env, chunk: string)
    ensures var parts := SplitLines(chunk);
            var r := ChunkField(env, chunk);
            (!NamesField(parts) ==> r == Skipped) &&
            (r.NoBlankLine? <==> NamesField(parts) && "" !in parts[2..]) &&
            (forall j :: NamesField(parts) && FirstBlank(parts, j) ==>
               r == Field(SearchName(parts[1]).value + ":", env.cleanBin(Join(parts[j + 1..], "\n"))))
  {
    var parts := SplitLines(chunk);
    forall j | NamesField(parts) && FirstBlank(parts, j)
      ensures ChunkField(env, chunk) == Field(SearchName(parts[1]).value + ":", env.cleanBin(Join(parts[j + 1..], "\n")))
    {
      FirstBlankIndex(parts, j);
    }
  }

  /** `parts[2:].index("")` finds the first blank line from the third on. */
  lemma FirstBlankIndex(parts: seq<string>, j: int)
    requires FirstBlank(parts, j)
    ensures IndexOf(parts[2..], "") == Some(j - 2)
  {
    assert parts[2..][j - 2] == "";
    var k := IndexOf(parts[2..], "").value;
    assert parts[k + 2] == parts[2..][k] == "";
  }

  /** The fields of chunks[i..] in order, None when one of them raises. */
  function FieldsFrom(env: Env, chunks: seq<string>, i: nat): (r: Option<seq<(string, string)>>)
    requires i <= |chunks|
    ensures r.Some? ==> |r.value| <= |chunks| - i
    ensures r.Some? ==> forall k :: 0 <= k < |r.value| ==> EndsWithColon(r.value[k].0)
    decreases |chunks| - i
  {
    if i == |chunks| then Some([])
    else
      match ChunkField(env, chunks[i])
      case NoBlankLine => None
      case Skipped => FieldsFrom(env, chunks, i + 1)
      case Field(k, v) =>
        match FieldsFrom(env, chunks, i + 1)
        case None => None
        case Some(fs) => Some([(k, v)] + fs)
  }

  /** The reference filter: one (key, value) row per chunk that gives a
      field, in chunk order. */
  function Named(env: Env, cs: seq<string>): seq<(string, string)>
  {
    if cs == [] then []
    else
      (match ChunkField(env, cs[0])
       case Field(k, v) => [(k, v)]
       case _ => []) + Named(env, cs[1..])
  }

  /** Some chunk of cs makes `list.index` raise. */
  predicate SomeRaises(env: Env, cs: seq<string>) {
    exists q :: 0 <= q < |cs| && ChunkField(env, cs[q]).NoBlankLine?
  }

  /** The loop over chunks[i..] raises exactly when one of the chunks does;
      otherwise its rows are the fields of the chunks, in order. */
  lemma {:induction false} FieldsFromMeaning(env: Env, chunks: seq<string>, i: nat)
    requires i <= |chunks|
    ensures FieldsFrom(env, chunks, i).None? <==> SomeRaises(env, chunks[i..])
    ensures FieldsFrom(env, chunks, i).Some? ==> FieldsFrom(env, chunks, i).value == Named(env, chunks[i..])
    decreases |chunks| - i
  {
    if i < |chunks| {
      FieldsFromMeaning(env, chunks, i + 1);
      FieldsFromStep(env, chunks, i);
    }
  }

  /** One chunk more in front: FieldsFrom and the reference filter both
      add the chunk's field, if any, and both fail when it raises. */
  lemma FieldsFromStep(env: Env, chunks: seq<string>, i: nat)
    requires i < |chunks|
    requires FieldsFrom(env, chunks, i + 1).None? <==> SomeRaises(env, chunks[i + 1..])
    requires FieldsFrom(env, chunks, i + 1).Some? ==> FieldsFrom(env, chunks, i + 1).value == Named(env, chunks[i + 1..])
    ensures FieldsFrom(env, chunks, i).None? <==> SomeRaises(env, chunks[i..])
    ensures FieldsFrom(env, chunks, i).Some? ==> FieldsFrom(env, chunks, i).value == Named(env, chunks[i..])
  {
    var cs := chunks[i..];
    assert cs[0] == chunks[i];
    assert cs[1..] == chunks[i + 1..];
    RaisesCons(env, cs);
    assert Named(env, cs) == (match ChunkField(env, chunks[i]) case Field(k, v) => [(k, v)] case _ => []) + Named(env, chunks[i + 1..]);
  }

  lemma RaisesCons(env: Env, cs: seq<string>)
    requires cs != []
    ensures SomeRaises(env, cs) <==> ChunkField(env, cs[0]).NoBlankLine? || SomeRaises(env, cs[1..])
  {
    if SomeRaises(env, cs[1..]) {
      var q :| 0 <= q < |cs[1..]| && ChunkField(env, cs[1..][q]).NoBlankLine?;
      assert cs[q + 1] == cs[1..][q];
    }
    if SomeRaises(env, cs) && !ChunkField(env, cs[0]).NoBlankLine? {
      var q :| 0 <= q < |cs| && ChunkField(env, cs[q]).NoBlankLine?;
      assert cs[1..][q - 1] == cs[q];
    }
  }

  const FormDataLine: Line := Spans([Span(Highlight, "Form data:\n")])

  const NoBlankLineError: string := "ValueError: '' is not in list"

  /** `ViewMultipart`. */
  function ViewMultipart(env: Env, hdrs: seq<Header>, content: string): ViewResult
  {
    var v := GetFirst(hdrs, "content-type");
    if !Truthy(v) then Decline
    else
      match env.parseContentType(v.value)
      case None => Decline
      case Some(ct) =>
        if "boundary" !in ct.params || ct.params["boundary"] == "" then Decline
        else
          match FieldsFrom(env, Split(content, "--" + ct.params["boundary"]), 0)
          case None => Fault(NoBlankLineError)
          case Some(fs) => Ok("Multipart form", [FormDataLine] + FormatKeyvals(fs, HeaderStyle, TextStyle))
  }

  /** Multipart declines exactly when the content-type is missing or empty,
      does not parse, or has no non-empty boundary. Otherwise the body is
      split on "--" + boundary; it faults exactly when a chunk names a field
      but has no blank line from its third line on, and else answers
      "Form data:" followed by the rows of the named chunks, in order. */
  lemma MultipartOutcome(env: Env, hdrs: seq<Header>, content: string)
    ensures var r := ViewMultipart(env, hdrs, content);
            var v := GetFirst(hdrs, "content-type");
            var p := if Truthy(v) then env.parseContentType(v.value) else None;
            var bounded := Truthy(v) && p.Some? && "boundary" in p.value.params && p.value.params["boundary"] != "";
            (r.Decline? <==> !bounded) &&
            (bounded ==>
               var cs := Split(content, "--" + p.value.params["boundary"]);
               (r.Fault? <==> SomeRaises(env, cs)) &&
               (r.Fault? ==> r.trace == NoBlankLineError) &&
               (r.Ok? ==> r.kind == "Multipart form" &&
                          r.lines == [FormDataLine] + FormatKeyvals(Named(env, cs), HeaderStyle, TextStyle)))
  {
    var v := GetFirst(hdrs, "content-type");
    if Truthy(v) && env.parseContentType(v.value).Some? {
      var ps := env.parseContentType(v.value).value.params;
      if "boundary" in ps && ps["boundary"] != "" {
        AllFields(env, Split(content, "--" + ps["boundary"]));
      }
    }
  }

  /** FieldsFromMeaning for the whole list of chunks. */
  lemma AllFields(env: Env, cs: seq<string>)
    ensures FieldsFrom(env, cs, 0).None? <==> SomeRaises(env, cs)
    ensures FieldsFrom(env, cs, 0).Some? ==> FieldsFrom(env, cs, 0).value == Named(env, cs)
  {
    FieldsFromMeaning(env, cs, 0);
    assert cs[0..] == cs;
  }

  function Zip(keys: seq<string>, vals: seq<string>): (r: seq<(string, string)>)
    requires |keys| == |vals|
    ensures |r| == |keys|
  {
    seq(|keys|, i requires 0 <= i < |keys| => (keys[i], vals[i]))
  }

  function Prepend(acc: seq<(string, string)>, rest: Option<seq<(string, string)>>): Option<seq<(string, string)>>
  {
    match rest
    case None => None
    case Some(fs) => Some(acc + fs)
  }

  lemma FieldsSkipped(env: Env, chunks: seq<string>, i: nat)
    requires i < |chunks| && ChunkField(env, chunks[i]) == Skipped
    ensures FieldsFrom(env, chunks, i) == FieldsFrom(env, chunks, i + 1)
  {
  }

  lemma FieldsFault(env: Env, chunks: seq<string>, i: nat)
    requires i < |chunks| && ChunkField(env, chunks[i]) == NoBlankLine
    ensures FieldsFrom(env, chunks, i) == None
  {
  }

  lemma FieldsStart(env: Env, chunks: seq<string>)
    ensures FieldsFrom(env, chunks, 0) == Prepend(Zip([], []), FieldsFrom(env, chunks, 0))
  {
    PrependNothing(FieldsFrom(env, chunks, 0));
  }

  lemma PrependNothing(o: Option<seq<(string, string)>>)
    ensures Prepend(Zip([], []), o) == o
  {
    assert Zip([], []) == [];
    match o
    case None =>
    case Some(fs) => assert [] + fs == fs;
  }

  lemma FieldsEnd(env: Env, chunks: seq<string>, keys: seq<string>, vals: seq<string>)
    requires |keys| == |vals|
    ensures Prepend(Zip(keys, vals), FieldsFrom(env, chunks, |chunks|)) == Some(Zip(keys, vals))
  {
    assert FieldsFrom(env, chunks, |chunks|) == Some([]);
    assert Zip(keys, vals) + [] == Zip(keys, vals);
  }

  lemma Regroup(a: seq<(string, string)>, b: seq<(string, string)>, c: seq<(string, string)>)
    ensures a + (b + c) == (a + b) + c
  {
  }

  lemma ZipAppend(keys: seq<string>, vals: seq<string>, k: string, v: string)
    requires |keys| == |vals|
    ensures Zip(keys + [k], vals + [v]) == Zip(keys, vals) + [(k, v)]
  {
  }

  lemma FieldsTaken(env: Env, chunks: seq<string>, i: nat, keys: seq<string>, vals: seq<string>, k: string, v: string)
    requires i < |chunks| && ChunkField(env, chunks[i]) == Field(k, v) && |keys| == |vals|
    ensures Prepend(Zip(keys, vals), FieldsFrom(env, chunks, i))
            == Prepend(Zip(keys + [k], vals + [v]), FieldsFrom(env, chunks, i + 1))
  {
    ZipAppend(keys, vals, k, v);
    var rest := FieldsFrom(env, chunks, i + 1);
    if rest.Some? {
      assert FieldsFrom(env, chunks, i) == Some([(k, v)] + rest.value);
      Regroup(Zip(keys, vals), [(k, v)], rest.value);
    } else {
      assert FieldsFrom(env, chunks, i) == None;
    }
  }

  /** The body of the chunk loop of `ViewMultipart` for one chunk. */
  method ChunkStep(env: Env, chunk: string) returns (o: ChunkOutcome)
    ensures o == ChunkField(env, chunk)
  {
    var parts := SplitLines(chunk);
    o := Skipped;
    if |parts| > 1 && Prefix(parts[0], 2) != "--" {
      var m := SearchName(parts[1]);
      if m.Some? {
        var key := m.value + ":";
        var j := IndexOf(parts[2..], "");
        if j.None? {
          return NoBlankLine;
        }
        o := Field(key, env.cleanBin(Join(parts[3 + j.value..], "\n")));
      }
    }
  }

  /** The chunk loop of `ViewMultipart`: parallel `keys` and `vals` lists
      filled chunk by chunk; None where `list.index` raises. */
  method CollectFields(env: Env, chunks: seq<string>) returns (r: Option<seq<(string, string)>>)
    ensures r == FieldsFrom(env, chunks, 0)
  {
    var keys: seq<string> := [];
    var vals: seq<string> := [];
    FieldsStart(env, chunks);
    for i := 0 to |chunks|
      invariant |keys| == |vals|
      invariant FieldsFrom(env, chunks, 0) == Prepend(Zip(keys, vals), FieldsFrom(env, chunks, i))
    {
      var o := ChunkStep(env, chunks[i]);
      match o
      case NoBlankLine =>
        FieldsFault(env, chunks, i);
        return None;
      case Skipped =>
        FieldsSkipped(env, chunks, i);
      case Field(key, val) =>
        FieldsTaken(env, chunks, i, keys, vals, key, val);
        keys := keys + [key];
        vals := vals + [val];
    }
    FieldsEnd(env, chunks, keys, vals);
    r := Some(Zip(keys, vals));
  }

  /** `ViewMultipart`: declines unless the content-type carries a boundary,
      then splits the body on "--" + boundary and lists the named parts. */
  method ViewMultipartLoop(env: Env, hdrs: seq<Header>, content: string) returns (r: ViewResult)
    ensures r == ViewMultipart(env, hdrs, content)
  {
    var v := GetFirst(hdrs, "content-type");
    if !Truthy(v) {
      return Decline;
    }
    var parsed := env.parseContentType(v.value);
    if parsed.None? {
      return Decline;
    }
    var params := parsed.value.params;
    if "boundary" !in params || params["boundary"] == "" {
      return Decline;
    }
    var fields := CollectFields(env, Split(content, "--" + params["boundary"]));
    if fields.None? {
      return Fault(NoBlankLineError);
    }
    r := Ok("Multipart form", [FormDataLine] + FormatKeyvals(fields.value, HeaderStyle, TextStyle));
  }

  // ================================================================ Auto and dispatch

  /** Which viewer Auto hands the content to; `BadContentType` is the
      content-type that does not parse, where indexing its None raises. */
  datatype Choice = Use(viewer: Viewer) | BadContentType

  /** The candidates the index lists for a key are registered viewers that
      declare it, none of them Auto. */
  lemma CandidatesDeclare(amf: bool, key: string)
    requires key in ContentTypesMap(Views(amf))
    ensures ContentTypesMap(Views(amf))[key] != []
    ensures forall v :: v in ContentTypesMap(Views(amf))[key] ==>
              v in Views(amf) && key in v.contentTypes && v.kind != Auto
  {
    var vs := Views(amf);
    ContentTypesDistinct(amf);
    ContentTypesMapIndex(vs, key);
    DeclaringMembers(vs, key);
    ViewsWellFormed(amf);
    forall v | v in ContentTypesMap(vs)[key] ensures v.kind != Auto {
      var i :| 0 <= i < |vs| && vs[i] == v;
      assert v == ViewerOf(v.kind);
    }
  }

  /** `get(name)(...)` for the two names Auto looks up. */
  function ByName(amf: bool, name: string): (c: Choice)
    requires name == "XML" || name == "Raw"
    ensures c.Use? && c.viewer in Views(amf) && c.viewer.name == name && c.viewer.kind != Auto
  {
    GetBuiltins(amf);
    Use(Get(Views(amf), name).value)
  }

  /** `ViewAuto`'s choice: the first candidate of the declared MIME type,
      else XML when the content looks like XML, else Raw; Raw straight away
      when there is no content-type. */
  function AutoChoice(env: Env, amf: bool, hdrs: seq<Header>, content: string): (c: Choice)
    ensures c.Use? ==> c.viewer in Views(amf) && c.viewer.kind != Auto
  {
    var ctype := GetFirst(hdrs, "content-type");
    if Truthy(ctype) then
      match env.parseContentType(ctype.value)
      case None => BadContentType
      case Some(ct) =>
        var key := ct.main + "/" + ct.sub;
        var m := ContentTypesMap(Views(amf));
        if key in m then
          CandidatesDeclare(amf, key);
          Use(m[key][0])
        else if env.isXML(content) then ByName(amf, "XML")
        else ByName(amf, "Raw")
    else ByName(amf, "Raw")
  }

  const NoneSubscriptError: string := "TypeError: 'NoneType' object has no attribute '__getitem__'"

  /** `ViewAuto`. */
  function ViewAuto(env: Env, amf: bool, hdrs: seq<Header>, content: string, limit: int): ViewResult
  {
    match AutoChoice(env, amf, hdrs, content)
    case BadContentType => Fault(NoneSubscriptError)
    case Use(v) => RunConcrete(env, v.kind, hdrs, content, limit)
  }

  /** Calling a viewer other than Auto. */
  function RunConcrete(env: Env, kind: ViewKind, hdrs: seq<Header>, content: string, limit: int): ViewResult
    requires kind != Auto
  {
    match kind
    case Raw => ViewRaw(env, content, limit)
    case Hex => ViewHex(env, content, limit)
    case Json => ViewJson(env, content, limit)
    case UrlEncoded => ViewUrlEncoded(env, content)
    case Multipart => ViewMultipart(env, hdrs, content)
    case _ => env.foreign(kind, hdrs, content, limit)
  }

  /** Calling the viewer with tag `kind` on (hdrs, content, limit). */
  function RunView(env: Env, amf: bool, kind: ViewKind, hdrs: seq<Header>, content: string, limit: int): ViewResult
  {
    if kind == Auto then ViewAuto(env, amf, hdrs, content, limit)
    else RunConcrete(env, kind, hdrs, content, limit)
  }

  /** The first registered viewer declaring ct heads Declaring. */
  lemma {:induction false} DeclaringHead(vs: seq<Viewer>, ct: string)
    requires Declaring(vs, ct) != []
    ensures exists i :: 0 <= i < |vs| && Declaring(vs, ct)[0] == vs[i] && ct in vs[i].contentTypes &&
                        forall j :: 0 <= j < i ==> ct !in vs[j].contentTypes
    decreases |vs|
  {
    var init := vs[..|vs| - 1];
    var last := vs[|vs| - 1];
    if Declaring(init, ct) != [] {
      DeclaringHead(init, ct);
      var i :| 0 <= i < |init| && Declaring(init, ct)[0] == init[i] && ct in init[i].contentTypes &&
               forall j :: 0 <= j < i ==> ct !in init[j].contentTypes;
      assert vs[i] == init[i];
      forall j | 0 <= j < i ensures ct !in vs[j].contentTypes {
        assert vs[j] == init[j];
      }
    } else {
      DeclaringMembers(init, ct);
      forall j | 0 <= j < |vs| - 1 ensures ct !in vs[j].contentTypes {
        assert vs[j] in init;
      }
    }
  }

  /** With no content-type, or an empty one, Auto shows Raw. */
  lemma AutoWithoutType(env: Env, amf: bool, hdrs: seq<Header>, content: string, limit: int)
    requires !Truthy(GetFirst(hdrs, "content-type"))
    ensures ViewAuto(env, amf, hdrs, content, limit) == ViewRaw(env, content, limit)
  {
    GetBuiltins(amf);
  }

  /** A content-type that does not parse makes Auto raise. */
  lemma AutoBadType(env: Env, amf: bool, hdrs: seq<Header>, content: string, limit: int)
    requires Truthy(GetFirst(hdrs, "content-type"))
    requires env.parseContentType(GetFirst(hdrs, "content-type").value).None?
    ensures ViewAuto(env, amf, hdrs, content, limit) == Fault(NoneSubscriptError)
  {
  }

  /** The first candidate the index lists for a type is the first viewer,
      in registration order, that declares it. */
  lemma FirstCandidate(vs: seq<Viewer>, key: string)
    requires forall v :: v in vs ==> Distinct(v.contentTypes)
    requires key in ContentTypesMap(vs)
    ensures ContentTypesMap(vs)[key] != []
    ensures exists i :: 0 <= i < |vs| && ContentTypesMap(vs)[key][0] == vs[i] && key in vs[i].contentTypes &&
              forall j :: 0 <= j < i ==> key !in vs[j].contentTypes
  {
    ContentTypesMapIndex(vs, key);
    DeclaringHead(vs, key);
  }

  /** For a MIME type the index knows, Auto takes the head of its list. */
  lemma AutoTakesHead(env: Env, amf: bool, hdrs: seq<Header>, content: string, ct: ContentType)
    requires Truthy(GetFirst(hdrs, "content-type"))
    requires env.parseContentType(GetFirst(hdrs, "content-type").value) == Some(ct)
    requires ct.main + "/" + ct.sub in ContentTypesMap(Views(amf))
    ensures ContentTypesMap(Views(amf))[ct.main + "/" + ct.sub] != []
    ensures AutoChoice(env, amf, hdrs, content) == Use(ContentTypesMap(Views(amf))[ct.main + "/" + ct.sub][0])
  {
    CandidatesDeclare(amf, ct.main + "/" + ct.sub);
  }

  /** A MIME type that the index knows goes to the first registered viewer
      declaring it, and never to Auto itself. */
  lemma AutoDeclaredType(env: Env, amf: bool, hdrs: seq<Header>, content: string, limit: int, ct: ContentType)
    requires Truthy(GetFirst(hdrs, "content-type"))
    requires env.parseContentType(GetFirst(hdrs, "content-type").value) == Some(ct)
    requires ct.main + "/" + ct.sub in ContentTypesMap(Views(amf))
    ensures var key := ct.main + "/" + ct.sub;
            var vs := Views(amf);
            exists i :: 0 <= i < |vs| && key in vs[i].contentTypes &&
              (forall j :: 0 <= j < i ==> key !in vs[j].contentTypes) && vs[i].kind != Auto &&
              ViewAuto(env, amf, hdrs, content, limit) == RunConcrete(env, vs[i].kind, hdrs, content, limit)
  {
    var key := ct.main + "/" + ct.sub;
    var vs := Views(amf);
    AutoTakesHead(env, amf, hdrs, content, ct);
    ContentTypesDistinct(amf);
    FirstCandidate(vs, key);
    var i :| 0 <= i < |vs| && ContentTypesMap(vs)[key][0] == vs[i] && key in vs[i].contentTypes &&
             forall j :: 0 <= j < i ==> key !in vs[j].contentTypes;
    var w := ContentTypesMap(vs)[key][0];
    AutoUses(env, amf, hdrs, content, limit, w);
    assert w == vs[i];
  }

  /** A MIME type no viewer declares goes to XML when the content looks like
      XML, else to Raw. */
  lemma AutoUndeclaredType(env: Env, amf: bool, hdrs: seq<Header>, content: string, limit: int, ct: ContentType)
    requires Truthy(GetFirst(hdrs, "content-type"))
    requires env.parseContentType(GetFirst(hdrs, "content-type").value) == Some(ct)
    requires ct.main + "/" + ct.sub !in ContentTypesMap(Views(amf))
    ensures ViewAuto(env, amf, hdrs, content, limit)
            == if env.isXML(content) then env.foreign(Xml, hdrs, content, limit)
               else ViewRaw(env, content, limit)
  {
    UndeclaredChoice(env, amf, hdrs, content, ct);
    UndeclaredRuns(env, amf, hdrs, content, limit);
  }

  lemma UndeclaredRuns(env: Env, amf: bool, hdrs: seq<Header>, content: string, limit: int)
    requires AutoChoice(env, amf, hdrs, content) == Use(if env.isXML(content) then XmlViewer else RawViewer)
    ensures ViewAuto(env, amf, hdrs, content, limit)
            == if env.isXML(content) then env.foreign(Xml, hdrs, content, limit)
               else ViewRaw(env, content, limit)
  {
    if env.isXML(content) {
      AutoUses(env, amf, hdrs, content, limit, XmlViewer);
    } else {
      AutoUses(env, amf, hdrs, content, limit, RawViewer);
    }
  }

  /** Auto answers with what the viewer it chose answers. */
  lemma AutoUses(env: Env, amf: bool, hdrs: seq<Header>, content: string, limit: int, w: Viewer)
    requires AutoChoice(env, amf, hdrs, content) == Use(w)
    ensures w.kind != Auto && ViewAuto(env, amf, hdrs, content, limit) == RunConcrete(env, w.kind, hdrs, content, limit)
  {
  }

  lemma UndeclaredChoice(env: Env, amf: bool, hdrs: seq<Header>, content: string, ct: ContentType)
    requires Truthy(GetFirst(hdrs, "content-type"))
    requires env.parseContentType(GetFirst(hdrs, "content-type").value) == Some(ct)
    requires ct.main + "/" + ct.sub !in ContentTypesMap(Views(amf))
    ensures AutoChoice(env, amf, hdrs, content) == Use(if env.isXML(content) then XmlViewer else RawViewer)
  {
    GetBuiltins(amf);
  }

  /** Without a content-type Auto never consults the XML sniffer. */
  lemma AutoNeverSniffsWithoutType(env: Env, sniff: string -> bool, amf: bool,
                                   hdrs: seq<Header>, content: string, limit: int)
    requires !Truthy(GetFirst(hdrs, "content-type"))
    ensures ViewAuto(env.(isXML := sniff), amf, hdrs, content, limit) == ViewAuto(env, amf, hdrs, content, limit)
  {
    GetBuiltins(amf);
  }

  /** A body declared "application/json" goes to JSON, and one declared
      "text/html" goes to HTML, never to HTML Outline. */
  lemma AutoKnownTypes(env: Env, amf: bool, hdrs: seq<Header>, content: string, limit: int)
    requires Truthy(GetFirst(hdrs, "content-type"))
    requires env.parseContentType(GetFirst(hdrs, "content-type").value).Some?
    ensures var ct := env.parseContentType(GetFirst(hdrs, "content-type").value).value;
            ct.main + "/" + ct.sub == "application/json" ==>
              ViewAuto(env, amf, hdrs, content, limit) == ViewJson(env, content, limit)
    ensures var ct := env.parseContentType(GetFirst(hdrs, "content-type").value).value;
            ct.main + "/" + ct.sub == "text/html" ==>
              ViewAuto(env, amf, hdrs, content, limit) == env.foreign(Html, hdrs, content, limit)
  {
    KnownTypes(amf);
  }
}
