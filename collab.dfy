/** What the content views get from outside: the request or response
    headers, read through a case-insensitive first-value lookup, and the
    helpers from modules that are not part of this model, given as
    function values. Nothing is fixed about what they compute, but as
    total functions they are deterministic and never raise; only `foreign`
    can answer with a fault. */
module Collab {
  import opened PyStr
  import opened Lines
  import opened Registry

  /** A raw header item (name, value); a header set keeps them in order,
      duplicates included. */
  type Header = (string, string)

  /** The first position whose header name equals `name` ignoring ASCII case. */
  function FirstHeaderFrom(hdrs: seq<Header>, name: string, from: nat): (r: Option<nat>)
    requires from <= |hdrs|
    ensures r.Some? ==> from <= r.value < |hdrs| && Lower(hdrs[r.value].0) == Lower(name)
    ensures r.Some? ==> forall j :: from <= j < r.value ==> Lower(hdrs[j].0) != Lower(name)
    ensures r.None? <==> forall j :: from <= j < |hdrs| ==> Lower(hdrs[j].0) != Lower(name)
    decreases |hdrs| - from
  {
    if from == |hdrs| then None
    else if Lower(hdrs[from].0) == Lower(name) then Some(from)
    else FirstHeaderFrom(hdrs, name, from + 1)
  }

  /** `ODictCaseless.get_first(name)`: the value of the first header whose
      name matches case-insensitively, None when there is none. */
  function GetFirst(hdrs: seq<Header>, name: string): (r: Option<string>)
    ensures r.None? <==> forall j :: 0 <= j < |hdrs| ==> Lower(hdrs[j].0) != Lower(name)
    ensures r.Some? ==> exists i :: 0 <= i < |hdrs| && Lower(hdrs[i].0) == Lower(name) &&
                                   hdrs[i].1 == r.value &&
                                   forall j :: 0 <= j < i ==> Lower(hdrs[j].0) != Lower(name)
  {
    match FirstHeaderFrom(hdrs, name, 0)
    case None => None
    case Some(i) => Some(hdrs[i].1)
  }

  /** Python truthiness of an optional string: present and non-empty. */
  predicate Truthy(o: Option<string>) {
    o.Some? && o.value != ""
  }

  /** What `utils.parse_content_type` returns: (type, subtype, parameters). */
  datatype ContentType = ContentType(main: string, sub: string, params: map<string, string>)

  /** One row of `netlib.utils.hexdump`: (offset, hex digits, printable text). */
  datatype HexRow = HexRow(offset: string, hexa: string, ascii: string)

  /** The helpers the views call. The viewers whose work is done by foreign
      libraries (XML and HTML through lxml, HTML Outline through html2text,
      JavaScript through jsbeautifier, Image through PIL, AMF through pyamf)
      are `foreign`, which may answer anything, a fault included. */
  datatype Env = Env(
    cleanBin: string -> string,                   // netlib.utils.cleanBin
    hexdump: string -> seq<HexRow>,               // netlib.utils.hexdump
    prettyJson: string -> Option<seq<string>>,    // utils.pretty_json
    urldecode: string -> seq<(string, string)>,   // utils.urldecode
    parseContentType: string -> Option<ContentType>, // utils.parse_content_type
    isXML: string -> bool,                        // utils.isXML
    decode: (string, string) -> Option<string>,   // encoding.decode(enc, content)
    prettySize: int -> string,                    // utils.pretty_size
    foreign: (ViewKind, seq<Header>, string, int) -> ViewResult)
}
