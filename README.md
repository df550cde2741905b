# mitmproxy content views, modelled in Dafny

mitmproxy's console shows the body of an intercepted request or response
through a *content view*. `libmproxy/console/contentview.py` defines:

- the viewers (Auto, Raw, Hex, JSON, XML, HTML, HTML Outline, JavaScript,
  URL-encoded, Multipart form, Image and, when pyamf is installed, AMF);
- the ordered registry `views`, with the `content_types_map` index built
  from it and the first-match lookups `get` and `get_by_shortcut`;
- `get_content_view`, which decodes a content-encoding, runs the chosen
  viewer, logs a viewer that raises and falls back to Raw when the viewer
  returns nothing.

This project models that logic and proves what it promises. It covers the
truncation trailer, the Auto resolver's dispatch order, the JSON line
budget, the multipart splitter and the fallback pipeline.

Modules, one file each:

- `PyStr` (`pystr.dfy`) holds the Python 2 string and list operations the
  views use: `s[:n]` with negative `n`, `splitlines`, `split` with a
  separator, `join`, `list.index` and ASCII `lower`. The properties proved
  include the round trips (split then join, and `splitlines` then join on
  text without "\r"), leftmost cuts for `split`, and the per-character
  meaning of `lower`.
- `Lines` (`lines.dfy`) holds the rendered lines: spans of (style, text) or
  key/value rows. It also holds the viewer result `Ok(label, lines) |
  Decline | Fault(trace)`. `Decline` is Python's `None`; `Fault` is a raised
  exception. Python's in-place list is the class `TextBuffer`, which the
  `trailer` method appends to. `_view_text` is here too.
- `Registry` (`registry.dfy`) holds the viewer records and the registry
  `views`. The AMF entry is appended under a boolean flag. The
  `content_types_map` construction is an imperative method proved equal to
  its functional definition, and the index is proved to list exactly the
  declaring viewers in registration order. `get` and `get_by_shortcut` are
  here too.
- `Collab` (`collab.dfy`) holds what the views receive from outside:
  - the headers, as an ordered list of (name, value) pairs read by a
    case-insensitive first match (`ODictCaseless.get_first`);
  - the helpers from modules not part of this model, as function-valued
    fields of `Env`. Nothing is fixed about what they compute, but as
    total functions they are deterministic and never raise; only the
    foreign viewers can fault. The helpers are
    `cleanBin`, `hexdump`, `pretty_json`, `urldecode`,
    `parse_content_type`, `isXML`, `encoding.decode`, `pretty_size`, and
    the viewers built on foreign libraries.
- `Viewers` (`viewers.dfy`) holds Raw, Hex, JSON, URL-encoded, Multipart and
  Auto, and the dispatch from a viewer's tag to its behaviour. The
  multipart field search is the regular expression `\bname="([^"]+)"`,
  written out as a leftmost-match search.
- `Pipeline` (`pipeline.dfy`) holds `get_content_view`.

Where the source loops and mutates, the model is an imperative method
proved equal to a specification function, and the properties are lemmas
about that function. This applies to `_view_text`, `trailer`, the
`ViewJSON` accumulator, the multipart `keys`/`vals` loop, the
`content_types_map` construction and the `msg` list of `get_content_view`.

Three behaviours of the code that a reader might not expect are modelled
as written:

- Shortcuts are not unique. JSON and JavaScript both answer to "j", so
  `get_by_shortcut("j")` is always JSON and JavaScript cannot be reached by
  its shortcut (`Registry.ShortcutJ`).
- Auto does not guard against a content-type that `parse_content_type`
  rejects. Indexing its `None` raises, which the model records as a fault
  (`Viewers.AutoBadType`).
- Multipart raises when a named part has no blank line from its third line
  on (`list.index` fails). The model records this as a fault
  (`Viewers.ChunkFieldShape`, `Viewers.ViewMultipartLoop`).

In both fault cases `get_content_view` logs the failure and shows Raw.

## Model

| member | source | states |
|---|---|---|
| PyStr.Prefix | libmproxy/console/contentview.py:70 | `content[:limit]` is a prefix of the content, the whole content when the limit is at least its length, exactly `limit` long otherwise, and counted from the end for a negative limit |
| PyStr.SplitLines | libmproxy/console/contentview.py:26 | no line of `splitlines` contains a line break, and there is at least one line exactly when the text is not empty |
| PyStr.SplitLinesNewline | libmproxy/console/contentview.py:26 | a line followed by "\n" is one line of the result, and the lines of the rest follow |
| PyStr.SplitLinesCrLf | libmproxy/console/contentview.py:26 | "\r\n" is a single terminator: a line followed by "\r\n" is one line, the lines of the rest follow, and no empty line is opened between them |
| PyStr.SplitLinesCr | libmproxy/console/contentview.py:26 | a "\r" not followed by "\n" ends a line on its own; with the two rows above and `splitlines("") == []`, this fixes every cut |
| PyStr.SplitLinesJoin | libmproxy/console/contentview.py:26 | for text without "\r", joining the lines with "\n" and adding back a final "\n", if the text ended with one, gives back the text |
| PyStr.SplitLinesKeepsText | libmproxy/console/contentview.py:26 | `splitlines` loses only the line terminators: the lines put back together are the text with the break characters removed |
| PyStr.Split | libmproxy/console/contentview.py:214 | `content.split("--" + boundary)` has at least one piece |
| PyStr.SplitJoin | libmproxy/console/contentview.py:214 | joining the pieces of a split with its separator gives back the content |
| PyStr.SplitPiecesFree | libmproxy/console/contentview.py:214 | no piece of the split contains the boundary separator |
| PyStr.SplitLeftmost | libmproxy/console/contentview.py:214 | the split cuts at leftmost occurrences: no occurrence of the separator in the content starts inside a piece, at the piece's own position in the content |
| PyStr.IndexOf | libmproxy/console/contentview.py:221 | `parts[2:].index("")` is the first blank line, and it fails exactly when there is none |
| PyStr.Lower | libmproxy/console/contentview.py:54 | the case folding used by the caseless header lookup keeps the length, maps each ASCII capital to its small letter and keeps every other character, so no capital is left |
| PyStr.LowerEqIgnoresCase | libmproxy/console/contentview.py:54 | two names fold to the same text exactly when they have the same length and agree position by position up to ASCII case |
| Lines.TextLines | libmproxy/console/contentview.py:26-29 | one text widget per input line, in order |
| Lines.TrailerAccounting | libmproxy/console/contentview.py:34-46 | the trailer leaves the lines unchanged exactly when `clen <= limit`; otherwise it keeps them as a prefix and adds a blank line and a notice for `clen - limit` bytes |
| Lines.TextBuffer.Append | libmproxy/console/contentview.py:27 | appending a widget adds it at the end and keeps the rest |
| Lines.Trailer | libmproxy/console/contentview.py:34-46 | `trailer` appends to the caller's list exactly the trailer lines for `clen` and `limit` |
| Lines.ViewTextLoop | libmproxy/console/contentview.py:21-31 | `_view_text` builds one text line per line of the cleaned content, followed by the trailer |
| Lines.ViewTextShape | libmproxy/console/contentview.py:21-31 | a text body has a line per cleaned line, and two more lines, a blank one and the notice for `total - limit`, exactly when `total` exceeds the limit |
| Registry.ViewerOf | libmproxy/console/contentview.py:49-52 | each viewer tag has one record (name, prompt, shortcut, content types) carrying that tag |
| Registry.Views | libmproxy/console/contentview.py:319-333 | the registry is the eleven built-in viewers in source order, followed by AMF exactly when pyamf is present |
| Registry.ViewsWellFormed | libmproxy/console/contentview.py:319-333 | every registry entry is the record of its own tag |
| Registry.ViewPrompts | libmproxy/console/contentview.py:342 | `view_prompts` is the (label, shortcut) prompt of every viewer, in registry order |
| Registry.DeclaringMembers | libmproxy/console/contentview.py:335-339 | the viewers declaring a MIME type are registry members that list it, and there are none exactly when no viewer lists it |
| Registry.AddTypesEffect | libmproxy/console/contentview.py:337-339 | `setdefault(ct, []).append(i)` over a viewer's types adds the viewer to the end of each of its types' lists and leaves other keys alone |
| Registry.ContentTypesMapIndex | libmproxy/console/contentview.py:335-339 | a MIME type is a key of `content_types_map` exactly when some viewer declares it, and its list is the declaring viewers in registry order |
| Registry.BuildContentTypesMap | libmproxy/console/contentview.py:335-339 | the nested loop builds exactly the index `ContentTypesMap` |
| Registry.FindFirst | libmproxy/console/contentview.py:345-354 | a search returns the first position that matches, or none when no position does |
| Registry.Get | libmproxy/console/contentview.py:351-354 | `get(name)` is the first viewer with that name, and None exactly when no viewer has it |
| Registry.GetByShortcut | libmproxy/console/contentview.py:345-348 | `get_by_shortcut(c)` is the first viewer with that shortcut, and None exactly when no viewer has it |
| Registry.NamesUnique | libmproxy/console/contentview.py:319-333 | no two registered viewers share a name, so `get` is unambiguous |
| Registry.ContentTypesDistinct | libmproxy/console/contentview.py:319-333 | no viewer lists the same MIME type twice |
| Registry.GetBuiltins | libmproxy/console/contentview.py:61-62 | `get("Raw")` and `get("XML")`, which Auto relies on, always find the Raw and XML viewers |
| Registry.ShortcutJ | libmproxy/console/contentview.py:136 | JSON and JavaScript share the shortcut "j": JSON answers it, and JavaScript, though registered, is reached by no shortcut |
| Registry.DeclaringSkips | libmproxy/console/contentview.py:335-339 | viewers that do not declare a type leave its candidate list unchanged |
| Registry.DeclaringTextHtml | libmproxy/console/contentview.py:157 | the built-in viewers declaring "text/html" are HTML then HTML Outline |
| Registry.DeclaringJson | libmproxy/console/contentview.py:137 | JSON is the only built-in viewer declaring "application/json" |
| Registry.DeclaringAmf | libmproxy/console/contentview.py:335-339 | no built-in viewer declares "application/x-amf" |
| Registry.DeclaringViews | libmproxy/console/contentview.py:332-339 | with pyamf present, AMF is added after the built-in viewers to the candidates of the types it declares |
| Registry.KnownTypes | libmproxy/console/contentview.py:335-339 | the index maps "text/html" to [HTML, HTML Outline] and "application/json" to [JSON], and has "application/x-amf" exactly when pyamf is present |
| Collab.FirstHeaderFrom | libmproxy/console/contentview.py:54 | the caseless search finds the first header whose name matches ignoring ASCII case, or none |
| Collab.GetFirst | libmproxy/console/contentview.py:54 | `get_first(name)` is the value of the first header matching ignoring case, and None exactly when none matches |
| Viewers.RawIsTotal | libmproxy/console/contentview.py:65-71 | Raw never declines or faults: it is labelled "Raw", shows a line per line of `content[:limit]`, and keys its trailer on `len(content)` |
| Viewers.HexTrailer | libmproxy/console/contentview.py:78-89 | Hex shows one row per hexdump row of `content[:limit]` and keys its trailer on `len(content)` |
| Viewers.StopAt | libmproxy/console/contentview.py:143-149 | the JSON loop takes at least one line, every line before the last shown keeps the running sum within the limit, and it stops early only after the sum exceeds the limit |
| Viewers.JsonTruncation | libmproxy/console/contentview.py:138-151 | JSON declines exactly when pretty-printing yields no lines and never faults; otherwise it shows a non-empty prefix that stops right after the first line taking the sum over the limit, with the trailer on the length of all lines |
| Viewers.JsonBody | libmproxy/console/contentview.py:141-151 | the accumulator loop with its early `break` builds exactly the truncated lines and the trailer |
| Viewers.ViewJsonLoop | libmproxy/console/contentview.py:138-151 | `ViewJSON.__call__` returns exactly the JSON view |
| Viewers.FormatKeyvals | libmproxy/console/contentview.py:188-192 | one key/value row per pair, in order |
| Viewers.ViewUrlEncoded | libmproxy/console/contentview.py:185-193 | URL-encoded declines exactly when decoding yields no pairs and never faults; otherwise it shows every pair in order with ":" appended to its key |
| Viewers.QuoteEnd | libmproxy/console/contentview.py:210 | the greedy `[^"]+` run ends at the first double quote, or at the end of the line |
| Viewers.NameAt | libmproxy/console/contentview.py:210 | a group found at a position is a match there: a word boundary, `name="`, a non-empty run without quotes and a closing quote, the run being the group |
| Viewers.NameAtIff | libmproxy/console/contentview.py:210 | the pattern matches at a position with a group exactly when that group is what is found there, so nothing found means no match at that position |
| Viewers.SearchPos | libmproxy/console/contentview.py:217 | `rx.search` finds the leftmost position where the pattern matches, and none exactly when it matches nowhere |
| Viewers.SearchName | libmproxy/console/contentview.py:217-219 | `match.group(1)` is the group of the leftmost match, and there is none exactly when the pattern matches nowhere |
| Viewers.PartsField | libmproxy/console/contentview.py:216-219 | a field taken from a chunk has a key that ends in ":" |
| Viewers.ChunkFieldShape | libmproxy/console/contentview.py:214-222 | a chunk with fewer than two lines, whose first line starts with "--", or whose second line names no field is skipped; a named chunk raises exactly when no line from the third on is blank; a named chunk whose first blank line from the third on is line j gives the key name + ":" and the cleaned text of the lines after j joined with "\n" |
| Viewers.FirstBlankIndex | libmproxy/console/contentview.py:221 | `parts[2:].index("")` is the position of the first blank line from the third line on |
| Viewers.FieldsFrom | libmproxy/console/contentview.py:214-222 | the fields collected from the chunks number at most one per chunk, and each key ends in ":" |
| Viewers.FieldsFromMeaning | libmproxy/console/contentview.py:214-222 | the chunk loop raises exactly when some chunk names a field without a blank line after it, and otherwise yields exactly the fields of the named chunks, in chunk order |
| Viewers.RaisesCons | libmproxy/console/contentview.py:214-222 | some chunk raises exactly when the first one does or one of the rest does |
| Viewers.MultipartOutcome | libmproxy/console/contentview.py:200-231 | Multipart declines exactly when the content-type is missing, unparsable, or has no non-empty boundary; otherwise it faults, with the `list.index` error, exactly when some chunk of the split raises, and else answers "Form data:" followed by one key/value row per named chunk, in chunk order |
| Viewers.ChunkStep | libmproxy/console/contentview.py:215-222 | one pass of the chunk loop yields exactly what the chunk contributes: skipped, a field, or the `list.index` error |
| Viewers.CollectFields | libmproxy/console/contentview.py:211-222 | the loop filling the parallel `keys` and `vals` lists yields exactly the fields in chunk order, or the fault |
| Viewers.ViewMultipartLoop | libmproxy/console/contentview.py:200-231 | `ViewMultipart.__call__` returns exactly the multipart view |
| Viewers.CandidatesDeclare | libmproxy/console/contentview.py:58-59 | the candidates for a known MIME type are registry members that declare it, none of them Auto, so Auto never calls itself |
| Viewers.ByName | libmproxy/console/contentview.py:61-62 | Auto's fallbacks by name are registered viewers with those names |
| Viewers.AutoChoice | libmproxy/console/contentview.py:53-62 | whatever Auto hands the content to is a registered viewer other than Auto |
| Viewers.DeclaringHead | libmproxy/console/contentview.py:335-339 | the head of a type's candidate list is the first registered viewer declaring it |
| Viewers.FirstCandidate | libmproxy/console/contentview.py:58-59 | `content_types_map[ct][0]` is the first viewer in registry order that declares `ct` |
| Viewers.AutoTakesHead | libmproxy/console/contentview.py:57-59 | for a MIME type the index knows, Auto takes the head of its candidate list |
| Viewers.AutoWithoutType | libmproxy/console/contentview.py:53-62 | with no content-type, or an empty one, Auto shows exactly what Raw shows |
| Viewers.AutoBadType | libmproxy/console/contentview.py:56-57 | a content-type that does not parse makes Auto raise |
| Viewers.AutoDeclaredType | libmproxy/console/contentview.py:57-59 | a known MIME type is handled by the first viewer registered for it, which is not Auto |
| Viewers.AutoUndeclaredType | libmproxy/console/contentview.py:60-62 | an unknown MIME type goes to XML when the content looks like XML, and to Raw otherwise |
| Viewers.AutoUses | libmproxy/console/contentview.py:53-62 | Auto answers with exactly what the viewer it chose answers, and that viewer is never Auto |
| Viewers.AutoNeverSniffsWithoutType | libmproxy/console/contentview.py:53-62 | without a content-type Auto's answer does not depend on the XML sniffer |
| Viewers.AutoKnownTypes | libmproxy/console/contentview.py:58-59 | "application/json" is shown by JSON, and "text/html" by HTML rather than HTML Outline |
| Pipeline.GetContentView | libmproxy/console/contentview.py:357-386 | `get_content_view` returns exactly the message, body and log of `ContentView` |
| Pipeline.Present | libmproxy/console/contentview.py:372-386 | after the viewer runs, a fault is logged and a decline or fault is replaced by the viewer `get("Raw")` finds |
| Pipeline.RawFallback | libmproxy/console/contentview.py:381-382 | `get("Raw")` finds a viewer whose tag is Raw, and running it is the Raw view |
| Pipeline.EmptyContent | libmproxy/console/contentview.py:361-362 | empty content answers "No content" with an empty body and logs nothing, whatever the view mode, headers and helpers |
| Pipeline.DecodeNote | libmproxy/console/contentview.py:367-372 | "[decoded enc]" is noted, and the viewer sees the decoded content, exactly when the encoding is present, not "identity", and decodes to something non-empty |
| Pipeline.MessageShape | libmproxy/console/contentview.py:381-386 | the message is the decoding note and a space, if there is a note, followed by the viewer's label or by "Couldn't parse: falling back to Raw" |
| Pipeline.FallbackToRaw | libmproxy/console/contentview.py:373-386 | an answering viewer's lines are the body; a declining or faulting one is replaced by Raw on the possibly decoded content; only a fault is logged, once |

## Left out

- The XML, HTML, HTML Outline, JavaScript, Image and AMF viewers are not
  modelled. Their work is done by lxml, html2text, jsbeautifier, PIL and
  pyamf. The model calls them through `Env.foreign`, which may return
  anything, a fault included. Their registry records (name, prompt,
  shortcut, MIME types) are modelled.
- The pyamf import is not modelled; the boolean `amf` flag stands for
  whether it succeeded.
- `cleanBin`, `hexdump`, `pretty_json`, `urldecode`, `parse_content_type`,
  `isXML`, `encoding.decode` and `pretty_size` live in modules that are not
  part of this model. They are function-valued fields of `Env`, unconstrained
  in what they return but modelled as deterministic and as never raising.
  An exception inside one of them is not modelled. Raised inside a viewer
  (line 373), it would be logged and answered by the Raw fallback. Raised by
  `encoding.decode` (line 369), before the `try`, or by `cleanBin` or
  `pretty_size` while Raw runs as the fallback (line 382), after the
  `except`, it would propagate out of `get_content_view`.
- Viewers.JsonTruncation: "never faults" holds because `pretty_json` is
  modelled as never raising.
- Viewers.ViewUrlEncoded: "never faults" holds because `urldecode` is
  modelled as never raising.
- Viewers.RawIsTotal: "never faults" holds because `cleanBin` is modelled
  as never raising.
- urwid widgets and the layout of `common.format_keyvals` are replaced by
  abstract span lines and key/value rows.
- `traceback.format_exc` is not modelled: a fault carries only the
  exception line, and `logfunc` is the list of logged strings returned
  beside the result.
- Bodies are byte strings in the source and `string` in the model.
  `splitlines` and `lower` are given their byte-string meaning: breaks at
  "\n", "\r" and "\r\n", and ASCII letters only.
- `ODictCaseless` is its ordered list of (name, value) pairs; only
  `get_first` is used.
- Viewers are singletons without state, so they are values identified by
  their tag. Aliasing between the `views` list and `content_types_map`
  entries is not modelled.
- Lines.Trailer, Lines.TextBuffer.Append, Viewers.JsonBody and
  Viewers.CollectFields use `TextBuffer` or local sequences. The lists they
  build are not shared with other code, so no aliasing is modelled.
- `VIEW_CUTOFF`, the default limit chosen by callers, is not modelled;
  `limit` is a parameter.
