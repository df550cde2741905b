/** `get_content_view`: the entry point that picks the body and the
    status message for a request or response body shown in a given view
    mode. It decodes a content-encoding, runs the viewer, logs a fault and
    falls back to Raw when the viewer declines or faults. */
module Pipeline {
  import opened PyStr
  import opened Lines
  import opened Registry
  import opened Collab
  import opened Viewers

  /** `(msg, body)` and what was handed to `logfunc`, in order. */
  datatype Outcome = Outcome(msg: string, body: seq<Line>, log: seq<string>)

  const NoContent: string := "No content"
  const FallbackNote: string := "Couldn't parse: falling back to Raw"

  function DecodedNote(enc: string): string {
    "[decoded " + enc + "]"
  }

  /** What is logged when a viewer raises; `trace` stands for the formatted
      traceback. */
  function FailMessage(trace: string): string {
    "Content viewer failed: \n" + trace
  }

  /** The content the viewer sees, and the message parts that decoding adds:
      a non-identity encoding whose decoding yields a non-empty result
      replaces the content and notes the encoding. */
  function Decoding(env: Env, hdrs: seq<Header>, content: string): (string, seq<string>)
  {
    var enc := GetFirst(hdrs, "content-encoding");
    if Truthy(enc) && enc.value != "identity" then
      match env.decode(enc.value, content)
      case None => (content, [])
      case Some(d) => if d != "" then (d, [DecodedNote(enc.value)]) else (content, [])
    else (content, [])
  }

  /** The message, body and log once the viewer has answered `ret` on
      `text`, with `parts` the message parts so far. */
  function Finish(env: Env, text: string, parts: seq<string>, ret: ViewResult, limit: int): Outcome
  {
    var log := if ret.Fault? then [FailMessage(ret.trace)] else [];
    if ret.Ok? then Outcome(Join(parts + [ret.kind], " "), ret.lines, log)
    else Outcome(Join(parts + [FallbackNote], " "), ViewRaw(env, text, limit).lines, log)
  }

  /** What `get_content_view(mode, hdrs, content, limit, logfunc)` returns
      and logs. */
  function ContentView(env: Env, amf: bool, mode: ViewKind, hdrs: seq<Header>,
                       content: string, limit: int): Outcome
  {
    if content == [] then Outcome(NoContent, [], [])
    else
      var d := Decoding(env, hdrs, content);
      Finish(env, d.0, d.1, RunView(env, amf, mode, hdrs, d.0, limit), limit)
  }

  /** `get_content_view` as the source runs it: the `msg` list grows step
      by step. */
  method GetContentView(env: Env, amf: bool, mode: ViewKind, hdrItems: seq<Header>,
                        content: string, limit: int)
      returns (msg: string, body: seq<Line>, log: seq<string>)
    ensures Outcome(msg, body, log) == ContentView(env, amf, mode, hdrItems, content, limit)
  {
    if content == [] {
      return NoContent, [], [];
    }
    var parts: seq<string> := [];
    var hdrs := hdrItems;
    var text := content;
    var enc := GetFirst(hdrs, "content-encoding");
    if Truthy(enc) && enc.value != "identity" {
      var decoded := env.decode(enc.value, text);
      if decoded.Some? && decoded.value != "" {
        text := decoded.value;
        parts := parts + [DecodedNote(enc.value)];
        assert Decoding(env, hdrs, content).1 == [DecodedNote(enc.value)];
        assert parts == [DecodedNote(enc.value)];
        assert Decoding(env, hdrs, content).0 == text;
      } else {
        assert Decoding(env, hdrs, content) == (content, []);
      }
    } else {
      assert Decoding(env, hdrs, content) == (content, []);
    }
    assert (text, parts) == Decoding(env, hdrs, content);
    var ret := RunView(env, amf, mode, hdrs, text, limit);
    msg, body, log := Present(env, amf, hdrs, text, parts, ret, limit);
  }

  /** After the viewer: a fault is logged, and a decline or fault is
      replaced by the view `get("Raw")` returns. */
  method Present(env: Env, amf: bool, hdrs: seq<Header>, text: string, parts0: seq<string>,
                 ret0: ViewResult, limit: int)
      returns (msg: string, body: seq<Line>, log: seq<string>)
    ensures Outcome(msg, body, log) == Finish(env, text, parts0, ret0, limit)
  {
    var parts := parts0;
    var ret := ret0;
    log := [];
    if ret.Fault? {
      log := log + [FailMessage(ret.trace)];
      ret := Decline;
    }
    if !ret.Ok? {
      RawFallback(env, amf, hdrs, text, limit);
      var raw := Get(Views(amf), "Raw").value;
      ret := RunConcrete(env, raw.kind, hdrs, text, limit);
      parts := parts + [FallbackNote];
    } else {
      parts := parts + [ret.kind];
    }
    msg := Join(parts, " ");
    body := ret.lines;
  }

  /** The viewer `get("Raw")` finds answers as Raw does. */
  lemma RawFallback(env: Env, amf: bool, hdrs: seq<Header>, text: string, limit: int)
    ensures Get(Views(amf), "Raw").Some? && Get(Views(amf), "Raw").value.kind == Raw
    ensures RunConcrete(env, Raw, hdrs, text, limit) == ViewRaw(env, text, limit)
  {
    GetBuiltins(amf);
  }

  /** Empty content answers "No content" with an empty body, whatever the
      view mode, headers and helpers, and logs nothing. */
  lemma EmptyContent(env: Env, amf: bool, mode: ViewKind, hdrs: seq<Header>, limit: int)
    ensures ContentView(env, amf, mode, hdrs, [], limit) == Outcome(NoContent, [], [])
  {
  }

  /** The note "[decoded enc]" appears exactly when the first
      content-encoding is present, is not empty or "identity", and decodes to
      something non-empty; the viewer then sees the decoded content. */
  lemma DecodeNote(env: Env, hdrs: seq<Header>, content: string)
    ensures var enc := GetFirst(hdrs, "content-encoding");
            var decodes := Truthy(enc) && enc.value != "identity" &&
                           env.decode(enc.value, content).Some? && env.decode(enc.value, content).value != "";
            var d := Decoding(env, hdrs, content);
            (decodes ==> d == (env.decode(enc.value, content).value, [DecodedNote(enc.value)])) &&
            (!decodes ==> d == (content, []))
  {
  }

  lemma JoinTwo(a: string, b: string, sep: string)
    ensures Join([a, b], sep) == a + sep + b
  {
    assert [a, b][1..] == [b];
  }

  /** The message is the decoding note, if any, a space, and then the
      viewer's label, or the fallback note when the viewer declined or
      faulted. */
  lemma MessageShape(env: Env, amf: bool, mode: ViewKind, hdrs: seq<Header>, content: string, limit: int)
    requires content != []
    ensures var d := Decoding(env, hdrs, content);
            var ret := RunView(env, amf, mode, hdrs, d.0, limit);
            var last := if ret.Ok? then ret.kind else FallbackNote;
            ContentView(env, amf, mode, hdrs, content, limit).msg
            == (if d.1 == [] then "" else d.1[0] + " ") + last
  {
    var d := Decoding(env, hdrs, content);
    var ret := RunView(env, amf, mode, hdrs, d.0, limit);
    var last := if ret.Ok? then ret.kind else FallbackNote;
    if d.1 == [] {
      assert d.1 + [last] == [last];
    } else {
      assert d.1 + [last] == [d.1[0], last];
      JoinTwo(d.1[0], last, " ");
    }
  }

  /** A viewer that answers gives the body; one that declines or faults is
      replaced by Raw on the possibly decoded content. Only a fault is
      logged, once. */
  lemma FallbackToRaw(env: Env, amf: bool, mode: ViewKind, hdrs: seq<Header>, content: string, limit: int)
    requires content != []
    ensures var d := Decoding(env, hdrs, content);
            var ret := RunView(env, amf, mode, hdrs, d.0, limit);
            var out := ContentView(env, amf, mode, hdrs, content, limit);
            (ret.Ok? ==> out.body == ret.lines) &&
            (!ret.Ok? ==> out.body == ViewRaw(env, d.0, limit).lines) &&
            (ret.Fault? <==> out.log != []) &&
            (ret.Fault? ==> out.log == [FailMessage(ret.trace)])
  {
  }
}
