/** The viewer registry: the ordered `views` list, the index from MIME type
    to candidate viewers built from it, and the first-match lookups by name
    and by shortcut key. */
module Registry {
  import opened PyStr

  /** One tag per viewer class. */
  datatype ViewKind =
    | Auto | Raw | Hex | Json | Xml | Html | HtmlOutline | JavaScript
    | UrlEncoded | Multipart | Image | Amf

  /** A viewer's class attributes: `name`, `prompt` (label and shortcut key)
      and `content_types`. */
  datatype Viewer = Viewer(kind: ViewKind, name: string, promptLabel: string,
                           shortcut: string, contentTypes: seq<string>)

  const AutoViewer := Viewer(Auto, "Auto", "auto", "a", [])
  const RawViewer := Viewer(Raw, "Raw", "raw", "r", [])
  const HexViewer := Viewer(Hex, "Hex", "hex", "e", [])
  const JsonViewer := Viewer(Json, "JSON", "json", "j", ["application/json"])
  const XmlViewer := Viewer(Xml, "XML", "xml", "x", ["text/xml"])
  const HtmlViewer := Viewer(Html, "HTML", "html", "h", ["text/html"])
  const HtmlOutlineViewer := Viewer(HtmlOutline, "HTML Outline", "html outline", "o", ["text/html"])
  const JavaScriptViewer :=
    Viewer(JavaScript, "JavaScript", "javascript", "j",
           ["application/x-javascript", "application/javascript", "text/javascript"])
  const UrlEncodedViewer :=
    Viewer(UrlEncoded, "URL-encoded", "urlencoded", "u", ["application/x-www-form-urlencoded"])
  const MultipartViewer := Viewer(Multipart, "Multipart Form", "multipart", "m", ["multipart/form-data"])
  const ImageViewer :=
    Viewer(Image, "Image", "image", "i",
           ["image/png", "image/jpeg", "image/gif", "image/vnd.microsoft.icon", "image/x-icon"])
  const AmfViewer := Viewer(Amf, "AMF", "amf", "f", ["application/x-amf"])

  /** The class attributes of each viewer class. */
  function ViewerOf(k: ViewKind): (v: Viewer)
    ensures v.kind == k
  {
    match k
    case Auto => AutoViewer
    case Raw => RawViewer
    case Hex => HexViewer
    case Json => JsonViewer
    case Xml => XmlViewer
    case Html => HtmlViewer
    case HtmlOutline => HtmlOutlineViewer
    case JavaScript => JavaScriptViewer
    case UrlEncoded => UrlEncodedViewer
    case Multipart => MultipartViewer
    case Image => ImageViewer
    case Amf => AmfViewer
  }

  /** The viewer classes listed unconditionally, in their registration order. */
  const BaseViews: seq<Viewer> :=
    [AutoViewer, RawViewer, HexViewer, JsonViewer, XmlViewer, HtmlViewer, HtmlOutlineViewer,
     JavaScriptViewer, UrlEncodedViewer, MultipartViewer, ImageViewer]

  /** The module-level `views` list; `amf` says whether pyamf imported, which
      appends the AMF viewer. */
  function Views(amf: bool): (r: seq<Viewer>)
    ensures |r| == |BaseViews| + (if amf then 1 else 0)
    ensures r[..|BaseViews|] == BaseViews
    ensures amf ==> r[|BaseViews|] == AmfViewer
  {
    if amf then BaseViews + [AmfViewer] else BaseViews
  }

  /** Every entry of the registry carries its class's attributes. */
  lemma ViewsWellFormed(amf: bool)
    ensures forall i :: 0 <= i < |Views(amf)| ==> Views(amf)[i] == ViewerOf(Views(amf)[i].kind)
  {
    var vs := Views(amf);
    forall i | 0 <= i < |vs| ensures vs[i] == ViewerOf(vs[i].kind) {
      if i < |BaseViews| {
        assert vs[i] == BaseViews[i];
      }
    }
  }

  /** `view_prompts`: the (label, shortcut) pairs for the selection menu. */
  function ViewPrompts(vs: seq<Viewer>): (r: seq<(string, string)>)
    ensures |r| == |vs|
    ensures forall i :: 0 <= i < |vs| ==> r[i] == (vs[i].promptLabel, vs[i].shortcut)
  {
    seq(|vs|, i requires 0 <= i < |vs| => (vs[i].promptLabel, vs[i].shortcut))
  }

  // ---------------------------------------------------------------- content_types_map

  predicate Distinct(xs: seq<string>) {
    forall i, j :: 0 <= i < j < |xs| ==> xs[i] != xs[j]
  }

  /** The viewers of vs that declare ct, in registry order. */
  function Declaring(vs: seq<Viewer>, ct: string): seq<Viewer>
  {
    if vs == [] then []
    else
      var last := vs[|vs| - 1];
      Declaring(vs[..|vs| - 1], ct) + (if ct in last.contentTypes then [last] else [])
  }

  /** Declaring keeps exactly the viewers that declare ct. */
  lemma {:induction false} DeclaringMembers(vs: seq<Viewer>, ct: string)
    ensures forall v :: v in Declaring(vs, ct) ==> v in vs && ct in v.contentTypes
    ensures (Declaring(vs, ct) == []) <==> (forall v :: v in vs ==> ct !in v.contentTypes)
    decreases |vs|
  {
    if vs != [] {
      var init := vs[..|vs| - 1];
      assert vs == init + [vs[|vs| - 1]];
      DeclaringMembers(init, ct);
    }
  }

  /** `content_types_map.setdefault(ct, []).append(v)` for each ct in cts, in order. */
  function AddTypes(m: map<string, seq<Viewer>>, v: Viewer, cts: seq<string>): map<string, seq<Viewer>>
  {
    if cts == [] then m
    else
      var m' := AddTypes(m, v, cts[..|cts| - 1]);
      var ct := cts[|cts| - 1];
      m'[ct := (if ct in m' then m'[ct] else []) + [v]]
  }

  /** The dictionary the module-level loop builds from the views in order. */
  function ContentTypesMap(vs: seq<Viewer>): map<string, seq<Viewer>>
  {
    if vs == [] then map[]
    else
      var last := vs[|vs| - 1];
      AddTypes(ContentTypesMap(vs[..|vs| - 1]), last, last.contentTypes)
  }

  lemma {:induction false} AddTypesEffect(m: map<string, seq<Viewer>>, v: Viewer, cts: seq<string>, ct: string)
    requires Distinct(cts)
    ensures ct in AddTypes(m, v, cts) <==> ct in m || ct in cts
    ensures ct in AddTypes(m, v, cts) ==>
              AddTypes(m, v, cts)[ct] == (if ct in m then m[ct] else []) + (if ct in cts then [v] else [])
    decreases |cts|
  {
    if cts != [] {
      var init := cts[..|cts| - 1];
      assert cts == init + [cts[|cts| - 1]];
      assert Distinct(init);
      AddTypesEffect(m, v, init, ct);
    }
  }

  /** `content_types_map[ct]` lists exactly the views declaring ct, in
      `views` order, and ct is a key exactly when some view declares it. */
  lemma {:induction false} ContentTypesMapIndex(vs: seq<Viewer>, ct: string)
    requires forall v :: v in vs ==> Distinct(v.contentTypes)
    ensures ct in ContentTypesMap(vs) <==> Declaring(vs, ct) != []
    ensures ct in ContentTypesMap(vs) ==> ContentTypesMap(vs)[ct] == Declaring(vs, ct)
    decreases |vs|
  {
    if vs != [] {
      var init := vs[..|vs| - 1];
      var last := vs[|vs| - 1];
      assert vs == init + [last];
      ContentTypesMapIndex(init, ct);
      AddTypesEffect(ContentTypesMap(init), last, last.contentTypes, ct);
    }
  }

  /** The module-level loop that fills `content_types_map`. */
  method BuildContentTypesMap(vs: seq<Viewer>) returns (m: map<string, seq<Viewer>>)
    ensures m == ContentTypesMap(vs)
  {
    m := map[];
    for i := 0 to |vs|
      invariant m == ContentTypesMap(vs[..i])
    {
      var v := vs[i];
      var cts := v.contentTypes;
      ghost var before := m;
      for j := 0 to |cts|
        invariant m == AddTypes(before, v, cts[..j])
      {
        var ct := cts[j];
        var l := if ct in m then m[ct] else [];
        m := m[ct := l + [v]];
        assert cts[..j + 1][..j] == cts[..j];
      }
      assert cts[..|cts|] == cts;
      assert vs[..i + 1][..i] == vs[..i];
    }
    assert vs[..|vs|] == vs;
  }

  // ---------------------------------------------------------------- get, get_by_shortcut

  /** The first position whose viewer satisfies p (a linear search). */
  function FindFirst(vs: seq<Viewer>, p: Viewer -> bool): (r: Option<nat>)
    ensures r.Some? ==> r.value < |vs| && p(vs[r.value])
    ensures r.Some? ==> forall j :: 0 <= j < r.value ==> !p(vs[j])
    ensures r.None? <==> forall j :: 0 <= j < |vs| ==> !p(vs[j])
  {
    if vs == [] then None
    else if p(vs[0]) then Some(0)
    else match FindFirst(vs[1..], p)
      case None => None
      case Some(j) => Some(j + 1)
  }

  /** `get(name)`: the first view, in list order, with that name. */
  function Get(vs: seq<Viewer>, name: string): (r: Option<Viewer>)
    ensures r.None? <==> forall j :: 0 <= j < |vs| ==> vs[j].name != name
    ensures r.Some? ==> exists i :: 0 <= i < |vs| && vs[i] == r.value && r.value.name == name &&
                                   forall j :: 0 <= j < i ==> vs[j].name != name
  {
    match FindFirst(vs, (v: Viewer) => v.name == name)
    case None => None
    case Some(i) => Some(vs[i])
  }

  /** `get_by_shortcut(c)`: the first view, in list order, whose prompt key is c. */
  function GetByShortcut(vs: seq<Viewer>, c: string): (r: Option<Viewer>)
    ensures r.None? <==> forall j :: 0 <= j < |vs| ==> vs[j].shortcut != c
    ensures r.Some? ==> exists i :: 0 <= i < |vs| && vs[i] == r.value && r.value.shortcut == c &&
                                   forall j :: 0 <= j < i ==> vs[j].shortcut != c
  {
    match FindFirst(vs, (v: Viewer) => v.shortcut == c)
    case None => None
    case Some(i) => Some(vs[i])
  }

  // ---------------------------------------------------------------- facts about the built registry

  /** No two registered viewers share a name, so `get` is unambiguous. */
  lemma NamesUnique(amf: bool)
    ensures forall i, j :: 0 <= i < j < |Views(amf)| ==> Views(amf)[i].name != Views(amf)[j].name
  {
  }

  /** No viewer lists a MIME type twice, as the index lemma requires. */
  lemma ContentTypesDistinct(amf: bool)
    ensures forall v :: v in Views(amf) ==> Distinct(v.contentTypes)
  {
    var vs := Views(amf);
    ViewsWellFormed(amf);
    forall v | v in vs ensures Distinct(v.contentTypes) {
      var i :| 0 <= i < |vs| && vs[i] == v;
      RecordDistinct(v.kind);
    }
  }

  lemma RecordDistinct(k: ViewKind)
    ensures Distinct(ViewerOf(k).contentTypes)
  {
    match k
    case Auto =>
    case Raw =>
    case Hex =>
    case Json =>
    case Xml =>
    case Html =>
    case HtmlOutline =>
    case JavaScript =>
    case UrlEncoded =>
    case Multipart =>
    case Image =>
    case Amf =>
  }

  /** `get("Raw")` and `get("XML")`, which Auto and the fallback call, exist. */
  lemma GetBuiltins(amf: bool)
    ensures Get(Views(amf), "Raw") == Some(RawViewer)
    ensures Get(Views(amf), "XML") == Some(XmlViewer)
  {
    var vs := Views(amf);
    assert vs[1] == RawViewer && vs[4] == XmlViewer;
    NamesUnique(amf);
  }

  /** JSON and JavaScript share the key "j": the key gives JSON, and
      JavaScript cannot be reached by any shortcut. */
  lemma ShortcutJ(amf: bool)
    ensures GetByShortcut(Views(amf), "j") == Some(JsonViewer)
    ensures JavaScriptViewer in Views(amf)
    ensures forall c :: GetByShortcut(Views(amf), c) != Some(JavaScriptViewer)
  {
    var vs := Views(amf);
    assert vs[3] == JsonViewer && vs[7] == JavaScriptViewer;
    assert forall j :: 0 <= j < 3 ==> vs[j].shortcut != "j";
  }

  /** One step of Declaring over a prefix of vs. */
  lemma DeclaringStep(vs: seq<Viewer>, ct: string, n: nat)
    requires 0 < n <= |vs|
    ensures Declaring(vs[..n], ct)
            == Declaring(vs[..n - 1], ct) + (if ct in vs[n - 1].contentTypes then [vs[n - 1]] else [])
  {
    assert vs[..n][..n - 1] == vs[..n - 1];
  }

  /** Viewers that do not declare ct leave Declaring unchanged. */
  lemma {:induction false} DeclaringSkips(vs: seq<Viewer>, ct: string, lo: nat, hi: nat)
    requires lo <= hi <= |vs|
    requires forall i :: lo <= i < hi ==> ct !in vs[i].contentTypes
    ensures Declaring(vs[..hi], ct) == Declaring(vs[..lo], ct)
    decreases hi - lo
  {
    if lo < hi {
      DeclaringStep(vs, ct, hi);
      DeclaringSkips(vs, ct, lo, hi - 1);
    }
  }

  /** Among the unconditional viewers, "text/html" is declared by HTML, then HTML Outline. */
  lemma DeclaringTextHtml()
    ensures Declaring(BaseViews, "text/html") == [HtmlViewer, HtmlOutlineViewer]
  {
    var vs, ct := BaseViews, "text/html";
    assert vs[5] == HtmlViewer && vs[6] == HtmlOutlineViewer;
    HtmlNoneBefore();
    DeclaringStep(vs, ct, 6);
    assert Declaring(vs[..6], ct) == [HtmlViewer];
    DeclaringStep(vs, ct, 7);
    assert Declaring(vs[..7], ct) == [HtmlViewer, HtmlOutlineViewer];
    HtmlNoneAfter();
  }

  /** The five viewers registered before HTML do not declare "text/html". */
  lemma HtmlNoneBefore()
    ensures Declaring(BaseViews[..5], "text/html") == []
  {
    var vs, ct := BaseViews, "text/html";
    assert vs[..0] == [];
    forall i | 0 <= i < 5 ensures ct !in vs[i].contentTypes {
      assert vs[i] == [AutoViewer, RawViewer, HexViewer, JsonViewer, XmlViewer][i];
    }
    DeclaringSkips(vs, ct, 0, 5);
  }

  /** The four viewers registered after HTML Outline do not declare "text/html". */
  lemma HtmlNoneAfter()
    ensures Declaring(BaseViews, "text/html") == Declaring(BaseViews[..7], "text/html")
  {
    var vs, ct := BaseViews, "text/html";
    forall i | 7 <= i < 11 ensures ct !in vs[i].contentTypes {
      assert vs[i] == [JavaScriptViewer, UrlEncodedViewer, MultipartViewer, ImageViewer][i - 7];
    }
    DeclaringSkips(vs, ct, 7, 11);
    assert vs[..11] == vs;
  }

  /** Among the unconditional viewers, "application/json" is declared by JSON alone. */
  lemma DeclaringJson()
    ensures Declaring(BaseViews, "application/json") == [JsonViewer]
  {
    var vs, ct := BaseViews, "application/json";
    assert vs[..0] == [];
    DeclaringSkips(vs, ct, 0, 3);
    DeclaringStep(vs, ct, 4);
    DeclaringSkips(vs, ct, 4, 11);
    assert vs[..11] == vs;
  }

  /** No unconditional viewer declares "application/x-amf". */
  lemma DeclaringAmf()
    ensures Declaring(BaseViews, "application/x-amf") == []
  {
    var vs, ct := BaseViews, "application/x-amf";
    assert vs[..0] == [];
    DeclaringSkips(vs, ct, 0, 11);
    assert vs[..11] == vs;
  }

  /** The optional AMF viewer only ever adds itself at the end of a list. */
  lemma DeclaringViews(amf: bool, ct: string)
    ensures Declaring(Views(amf), ct)
            == Declaring(BaseViews, ct) + (if amf && ct in AmfViewer.contentTypes then [AmfViewer] else [])
  {
    if amf {
      DeclaringStep(Views(amf), ct, 12);
      assert Views(amf)[..12] == Views(amf);
    }
  }

  /** "text/html" has two candidates, HTML first, so Auto picks HTML;
      "application/json" has JSON alone; "application/x-amf" is a key exactly
      when the AMF viewer is registered. */
  lemma KnownTypes(amf: bool)
    ensures "text/html" in ContentTypesMap(Views(amf)) &&
            ContentTypesMap(Views(amf))["text/html"] == [HtmlViewer, HtmlOutlineViewer]
    ensures "application/json" in ContentTypesMap(Views(amf)) &&
            ContentTypesMap(Views(amf))["application/json"] == [JsonViewer]
    ensures "application/x-amf" in ContentTypesMap(Views(amf)) <==> amf
  {
    var vs := Views(amf);
    ContentTypesDistinct(amf);
    ContentTypesMapIndex(vs, "text/html");
    ContentTypesMapIndex(vs, "application/json");
    ContentTypesMapIndex(vs, "application/x-amf");
    DeclaringTextHtml();
    DeclaringJson();
    DeclaringAmf();
    DeclaringViews(amf, "text/html");
    DeclaringViews(amf, "application/json");
    DeclaringViews(amf, "application/x-amf");
  }
}
