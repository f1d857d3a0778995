/**
 * The tag registry: three insertion-ordered keyed maps (generic meta tags,
 * Open Graph and Twitter-card properties), a list of link records and a
 * list of JSON-LD documents, with the builder operations that fill them and
 * the accessors that read values back.
 */
module MetaTags {
  import opened Wrappers
  import opened OrderedMap
  import Decimal

  /** A tag's attributes: a PHP array from attribute name to value. */
  type Attributes = OMap<string>

  /**
   * A JSON-LD document as the caller hands it over. The registry never looks
   * inside one; it only keeps the documents in order.
   */
  datatype Json =
    | JNull
    | JBool(b: bool)
    | JInt(i: int)
    | JString(s: string)
    | JList(items: seq<Json>)
    | JObject(fields: seq<(string, Json)>)

  /** What `jsonld(array $schema)` accepts: a PHP array, that is a JSON list or object. */
  type Schema = doc: Json | doc.JList? || doc.JObject? witness JList([])

  /** One stored tag: element name, attributes and optional text content. */
  datatype Entry = Entry(tag: string, attributes: Attributes, content: Option<string>)

  /** One link record. */
  datatype Link = Link(rel: string, href: string, attributes: Attributes)

  datatype Registry = Registry(
    meta: OMap<Entry>,
    links: seq<Link>,
    og: OMap<Entry>,
    twitter: OMap<Entry>,
    jsonLd: seq<Schema>
  )

  /** A freshly constructed registry. */
  const Empty: Registry := Registry([], [], [], [], [])

  /** The key `og($key)` stores under: `og:` followed by `key`. */
  function OgKey(key: string): (k: string)
    ensures |k| == |key| + 3 && k[3..] == key
  {
    "og:" + key
  }

  /** The key `twitter($key)` stores under: `twitter:` followed by `key`. */
  function TwitterKey(key: string): (k: string)
    ensures |k| == |key| + 8 && k[8..] == key
  {
    "twitter:" + key
  }

  /** The entry `og()` and `twitter()` store: a `meta` tag whose only attribute is `content`. */
  function ContentEntry(content: string): Entry {
    Entry("meta", [("content", content)], None)
  }

  /** The providers used when the caller passes an empty list. */
  const AllProviders: seq<string> := ["meta", "og", "twitter"]

  /** Whether a `title`/`description` call with `providers` writes into `name`'s namespace. */
  predicate Selected(providers: seq<string>, name: string) {
    name in (if |providers| == 0 then AllProviders else providers)
  }

  /** PHP truthiness of a nullable int: null and 0 are false. */
  predicate IntTruthy(n: Option<int>) {
    n.Some? && n.value != 0
  }

  /** PHP truthiness of a nullable string: null, "" and "0" are false. */
  predicate StringTruthy(s: Option<string>) {
    s.Some? && s.value != "" && s.value != "0"
  }

  /** Number of links whose `rel` is `rel`. */
  function CountRel(links: seq<Link>, rel: string): nat {
    if |links| == 0 then 0
    else CountRel(links[..|links| - 1], rel) + (if links[|links| - 1].rel == rel then 1 else 0)
  }

  /** The links whose `rel` differs from `rel`, in their original order. */
  function WithoutRel(links: seq<Link>, rel: string): (r: seq<Link>)
    ensures |r| <= |links|
    ensures forall l :: l in r <==> l in links && l.rel != rel
    ensures CountRel(r, rel) == 0
    ensures forall other :: other != rel ==> CountRel(r, other) == CountRel(links, other)
  {
    if |links| == 0 then []
    else
      var init := links[..|links| - 1];
      var last := links[|links| - 1];
      var rest := WithoutRel(init, rel);
      assert links == init + [last];
      if last.rel == rel then rest
      else
        assert (rest + [last])[..|rest|] == rest;
        rest + [last]
  }

  // ---------------------------------------------------------------------
  // Keyed builders
  // ---------------------------------------------------------------------

  /** `meta($key, $tag, $attributes, $content)`: store an arbitrary tag under `key`. */
  function Meta(reg: Registry, key: string, tag: string, attributes: Attributes, content: Option<string>)
    : (r: Registry)
    ensures Assigned(reg.meta, r.meta, key, Entry(tag, attributes, content))
    ensures r.links == reg.links && r.og == reg.og && r.twitter == reg.twitter && r.jsonLd == reg.jsonLd
  {
    reg.(meta := Put(reg.meta, key, Entry(tag, attributes, content)))
  }

  /** `og($key, $content)`: store a content tag under `og:` followed by `key`. */
  function Og(reg: Registry, key: string, content: string): (r: Registry)
    ensures Assigned(reg.og, r.og, OgKey(key), ContentEntry(content))
    ensures r.meta == reg.meta && r.links == reg.links && r.twitter == reg.twitter && r.jsonLd == reg.jsonLd
  {
    reg.(og := Put(reg.og, OgKey(key), ContentEntry(content)))
  }

  /** `twitter($key, $content)`: store a content tag under `twitter:` followed by `key`. */
  function Twitter(reg: Registry, key: string, content: string): (r: Registry)
    ensures Assigned(reg.twitter, r.twitter, TwitterKey(key), ContentEntry(content))
    ensures r.meta == reg.meta && r.links == reg.links && r.og == reg.og && r.jsonLd == reg.jsonLd
  {
    reg.(twitter := Put(reg.twitter, TwitterKey(key), ContentEntry(content)))
  }

  /** `title($value, $providers)`. */
  function Title(reg: Registry, value: string, providers: seq<string>): (r: Registry)
    ensures Selected(providers, "meta") ==> Assigned(reg.meta, r.meta, "title", Entry("title", [], Some(value)))
    ensures !Selected(providers, "meta") ==> r.meta == reg.meta
    ensures Selected(providers, "og") ==> Assigned(reg.og, r.og, OgKey("title"), ContentEntry(value))
    ensures !Selected(providers, "og") ==> r.og == reg.og
    ensures Selected(providers, "twitter") ==> Assigned(reg.twitter, r.twitter, TwitterKey("title"), ContentEntry(value))
    ensures !Selected(providers, "twitter") ==> r.twitter == reg.twitter
    ensures r.links == reg.links && r.jsonLd == reg.jsonLd
  {
    var r1 := if Selected(providers, "meta") then Meta(reg, "title", "title", [], Some(value)) else reg;
    var r2 := if Selected(providers, "og") then Og(r1, "title", value) else r1;
    if Selected(providers, "twitter") then Twitter(r2, "title", value) else r2
  }

  /** `description($value, $providers)`. */
  function Description(reg: Registry, value: string, providers: seq<string>): (r: Registry)
    ensures Selected(providers, "meta") ==> Assigned(reg.meta, r.meta, "description", ContentEntry(value))
    ensures !Selected(providers, "meta") ==> r.meta == reg.meta
    ensures Selected(providers, "og") ==> Assigned(reg.og, r.og, OgKey("description"), ContentEntry(value))
    ensures !Selected(providers, "og") ==> r.og == reg.og
    ensures Selected(providers, "twitter") ==> Assigned(reg.twitter, r.twitter, TwitterKey("description"), ContentEntry(value))
    ensures !Selected(providers, "twitter") ==> r.twitter == reg.twitter
    ensures r.links == reg.links && r.jsonLd == reg.jsonLd
  {
    var entry := ContentEntry(value);
    var r1 := if Selected(providers, "meta") then Meta(reg, "description", entry.tag, entry.attributes, None) else reg;
    var r2 := if Selected(providers, "og") then Og(r1, "description", value) else r1;
    if Selected(providers, "twitter") then Twitter(r2, "description", value) else r2
  }

  /** `robots($value)`. */
  function Robots(reg: Registry, value: string): (r: Registry)
    ensures Assigned(reg.meta, r.meta, "robots", ContentEntry(value))
    ensures r.links == reg.links && r.og == reg.og && r.twitter == reg.twitter && r.jsonLd == reg.jsonLd
  {
    Meta(reg, "robots", "meta", [("content", value)], None)
  }

  /** `if ($flag) { og($key, $content); }`: the conditional writes of `image()`. */
  function OgIf(reg: Registry, flag: bool, key: string, content: string): (r: Registry)
    ensures flag ==> Assigned(reg.og, r.og, OgKey(key), ContentEntry(content))
    ensures !flag ==> r == reg
    ensures Get(r.og, OgKey(key)) == if flag then Some(ContentEntry(content)) else Get(reg.og, OgKey(key))
    ensures forall k :: k != OgKey(key) ==> Get(r.og, k) == Get(reg.og, k)
    ensures r.meta == reg.meta && r.links == reg.links && r.twitter == reg.twitter && r.jsonLd == reg.jsonLd
  {
    if flag then Og(reg, key, content) else reg
  }

  /** The og entry `OgIf` writes, as a list of at most one write. */
  function OgWrite(flag: bool, key: string, content: string): seq<(string, Entry)> {
    if flag then [(OgKey(key), ContentEntry(content))] else []
  }

  /** `OgWrite` writes no key but its own. */
  lemma OgWriteOther(flag: bool, key: string, content: string, k: string)
    requires k != OgKey(key)
    ensures !HasKey(OgWrite(flag, key, content), k)
  {
  }

  /** A conditional og write, of a key not yet written, extends the write list by itself. */
  lemma OgIfExtends(base: OMap<Entry>, reg: Registry, writes: seq<(string, Entry)>,
                    flag: bool, key: string, content: string)
    requires Extends(base, reg.og, writes)
    requires !HasKey(writes, OgKey(key))
    ensures Extends(base, OgIf(reg, flag, key, content).og, writes + OgWrite(flag, key, content))
  {
    if flag {
      ExtendsPut(base, reg.og, writes, OgKey(key), ContentEntry(content));
    } else {
      assert writes + OgWrite(flag, key, content) == writes;
    }
  }

  /** The og keys `image()` may write. The height key is spelled as the code spells it. */
  const ImageKeys: set<string> := {OgKey("image"), OgKey("image:width"), OgKey("image:heigth"), OgKey("image:type")}

  /** The keys `image()` writes are four different keys. */
  lemma ImageKeysDistinct()
    ensures OgKey("image") != OgKey("image:width") && OgKey("image") != OgKey("image:heigth")
    ensures OgKey("image") != OgKey("image:type") && OgKey("image:width") != OgKey("image:heigth")
    ensures OgKey("image:width") != OgKey("image:type") && OgKey("image:heigth") != OgKey("image:type")
  {
    // The four suffixes have four different lengths.
    assert |"image"| == 5 && |"image:width"| == 11 && |"image:heigth"| == 12 && |"image:type"| == 10;
  }

  /** The text `image()` writes for a width or height: its decimal string when truthy. */
  function SizeText(n: Option<int>): string {
    if IntTruthy(n) then Decimal.IntToString(n.value) else ""
  }

  /** The text `image()` writes for the type, when truthy. */
  function TypeText(mime: Option<string>): string {
    if StringTruthy(mime) then mime.value else ""
  }

  /**
   * The og writes of `image()` in the order it makes them: the image, then
   * the width, height and type that are truthy.
   */
  function ImageWrites(value: string, width: Option<int>, height: Option<int>, mime: Option<string>)
    : seq<(string, Entry)>
  {
    OgWrite(true, "image", value)
    + OgWrite(IntTruthy(width), "image:width", SizeText(width))
    + OgWrite(IntTruthy(height), "image:heigth", SizeText(height))
    + OgWrite(StringTruthy(mime), "image:type", TypeText(mime))
  }

  /** Each write of `image()` is to a key that no earlier write of it used. */
  lemma ImageWritesFresh(value: string, width: Option<int>, height: Option<int>, mime: Option<string>)
    ensures var a := OgWrite(true, "image", value);
            var b := OgWrite(IntTruthy(width), "image:width", SizeText(width));
            var c := OgWrite(IntTruthy(height), "image:heigth", SizeText(height));
      && !HasKey(a, OgKey("image:width"))
      && !HasKey(a + b, OgKey("image:heigth"))
      && !HasKey(a + b + c, OgKey("image:type"))
  {
    ImageKeysDistinct();
    var a := OgWrite(true, "image", value);
    var b := OgWrite(IntTruthy(width), "image:width", SizeText(width));
    var c := OgWrite(IntTruthy(height), "image:heigth", SizeText(height));
    OgWriteOther(true, "image", value, OgKey("image:width"));
    OgWriteOther(true, "image", value, OgKey("image:heigth"));
    OgWriteOther(IntTruthy(width), "image:width", SizeText(width), OgKey("image:heigth"));
    NoKeyAppend(a, b, OgKey("image:heigth"));
    OgWriteOther(true, "image", value, OgKey("image:type"));
    OgWriteOther(IntTruthy(width), "image:width", SizeText(width), OgKey("image:type"));
    OgWriteOther(IntTruthy(height), "image:heigth", SizeText(height), OgKey("image:type"));
    NoKeyAppend(a, b, OgKey("image:type"));
    NoKeyAppend(a + b, c, OgKey("image:type"));
  }

  /** The order of the og map after `image()`: existing keys keep their slots, new ones follow in write order. */
  lemma ImageOgExtends(reg: Registry, value: string, width: Option<int>, height: Option<int>, mime: Option<string>)
    ensures Extends(reg.og,
                    OgIf(OgIf(OgIf(OgIf(reg, true, "image", value),
                                   IntTruthy(width), "image:width", SizeText(width)),
                              IntTruthy(height), "image:heigth", SizeText(height)),
                         StringTruthy(mime), "image:type", TypeText(mime)).og,
                    ImageWrites(value, width, height, mime))
  {
    var a := OgWrite(true, "image", value);
    var b := OgWrite(IntTruthy(width), "image:width", SizeText(width));
    var c := OgWrite(IntTruthy(height), "image:heigth", SizeText(height));
    var r1 := OgIf(reg, true, "image", value);
    var r2 := OgIf(r1, IntTruthy(width), "image:width", SizeText(width));
    var r3 := OgIf(r2, IntTruthy(height), "image:heigth", SizeText(height));
    ImageWritesFresh(value, width, height, mime);
    assert reg.og[|reg.og|..] == [];
    OgIfExtends(reg.og, reg, [], true, "image", value);
    assert [] + a == a;
    OgIfExtends(reg.og, r1, a, IntTruthy(width), "image:width", SizeText(width));
    OgIfExtends(reg.og, r2, a + b, IntTruthy(height), "image:heigth", SizeText(height));
    OgIfExtends(reg.og, r3, a + b + c, StringTruthy(mime), "image:type", TypeText(mime));
  }

  /** The og half of `image()`: the image itself, then width, height and type when truthy. */
  function ImageOg(reg: Registry, value: string, width: Option<int>, height: Option<int>, mime: Option<string>)
    : (r: Registry)
    ensures Get(r.og, OgKey("image")) == Some(ContentEntry(value))
    ensures Get(r.og, OgKey("image:width")) ==
              if IntTruthy(width) then Some(ContentEntry(Decimal.IntToString(width.value)))
              else Get(reg.og, OgKey("image:width"))
    ensures Get(r.og, OgKey("image:heigth")) ==
              if IntTruthy(height) then Some(ContentEntry(Decimal.IntToString(height.value)))
              else Get(reg.og, OgKey("image:heigth"))
    ensures Get(r.og, OgKey("image:type")) ==
              if StringTruthy(mime) then Some(ContentEntry(mime.value))
              else Get(reg.og, OgKey("image:type"))
    ensures forall k :: k !in ImageKeys ==> Get(r.og, k) == Get(reg.og, k)
    ensures Extends(reg.og, r.og, ImageWrites(value, width, height, mime))
    ensures r.meta == reg.meta && r.links == reg.links && r.twitter == reg.twitter && r.jsonLd == reg.jsonLd
  {
    ImageKeysDistinct();
    var r1 := OgIf(reg, true, "image", value);
    var r2 := OgIf(r1, IntTruthy(width), "image:width", SizeText(width));
    var r3 := OgIf(r2, IntTruthy(height), "image:heigth", SizeText(height));
    var r4 := OgIf(r3, StringTruthy(mime), "image:type", TypeText(mime));
    ImageOgExtends(reg, value, width, height, mime);
    assert forall k :: k !in ImageKeys ==> Get(r4.og, k) == Get(reg.og, k) by {
      forall k | k !in ImageKeys
        ensures Get(r4.og, k) == Get(reg.og, k)
      {
        assert k != OgKey("image") && k != OgKey("image:width") && k != OgKey("image:heigth") && k != OgKey("image:type");
        calc {
          Get(r4.og, k);
          Get(r3.og, k);
          Get(r2.og, k);
          Get(r1.og, k);
          Get(reg.og, k);
        }
      }
    }
    r4
  }

  /** `image($value, $width, $heigth, $type)`. */
  function Image(reg: Registry, value: string, width: Option<int>, height: Option<int>, mime: Option<string>)
    : (r: Registry)
    ensures Get(r.og, OgKey("image")) == Some(ContentEntry(value))
    ensures Get(r.og, OgKey("image:width")) ==
              if IntTruthy(width) then Some(ContentEntry(Decimal.IntToString(width.value)))
              else Get(reg.og, OgKey("image:width"))
    ensures Get(r.og, OgKey("image:heigth")) ==
              if IntTruthy(height) then Some(ContentEntry(Decimal.IntToString(height.value)))
              else Get(reg.og, OgKey("image:heigth"))
    ensures Get(r.og, OgKey("image:type")) ==
              if StringTruthy(mime) then Some(ContentEntry(mime.value))
              else Get(reg.og, OgKey("image:type"))
    ensures forall k :: k !in ImageKeys ==> Get(r.og, k) == Get(reg.og, k)
    ensures Extends(reg.og, r.og, ImageWrites(value, width, height, mime))
    ensures Assigned(reg.twitter, r.twitter, TwitterKey("image"), ContentEntry(value))
    ensures r.meta == reg.meta && r.links == reg.links && r.jsonLd == reg.jsonLd
  {
    Twitter(ImageOg(reg, value, width, height, mime), "image", value)
  }

  // ---------------------------------------------------------------------
  // Links and JSON-LD
  // ---------------------------------------------------------------------

  /** `addLink($rel, $href, $attributes)`: append one record; duplicates are allowed. */
  function AddLink(reg: Registry, rel: string, href: string, attributes: Attributes): (r: Registry)
    ensures |r.links| == |reg.links| + 1
    ensures r.links[..|reg.links|] == reg.links
    ensures r.links[|reg.links|] == Link(rel, href, attributes)
    ensures CountRel(r.links, rel) == CountRel(reg.links, rel) + 1
    ensures r.meta == reg.meta && r.og == reg.og && r.twitter == reg.twitter && r.jsonLd == reg.jsonLd
  {
    var links := reg.links + [Link(rel, href, attributes)];
    assert links[..|reg.links|] == reg.links;
    reg.(links := links)
  }

  /**
   * `replaceLink($rel, $href, $attributes)`: drop every link with this
   * `rel`, then append the new one.
   */
  function ReplaceLink(reg: Registry, rel: string, href: string, attributes: Attributes): (r: Registry)
    ensures |r.links| >= 1 && r.links[|r.links| - 1] == Link(rel, href, attributes)
    ensures CountRel(r.links, rel) == 1
    ensures forall i :: 0 <= i < |r.links| - 1 ==> r.links[i].rel != rel
    ensures r.links[..|r.links| - 1] == WithoutRel(reg.links, rel)
    ensures forall other :: other != rel ==> CountRel(r.links, other) == CountRel(reg.links, other)
    ensures r.meta == reg.meta && r.og == reg.og && r.twitter == reg.twitter && r.jsonLd == reg.jsonLd
  {
    var kept := WithoutRel(reg.links, rel);
    var links := kept + [Link(rel, href, attributes)];
    assert links[..|kept|] == kept;
    assert forall i :: 0 <= i < |kept| ==> kept[i] in kept;
    reg.(links := links)
  }

  /** `canonical($value)`: the single canonical link, mirrored into `og:url`. */
  function Canonical(reg: Registry, value: string): (r: Registry)
    ensures CountRel(r.links, "canonical") == 1
    ensures |r.links| >= 1 && r.links[|r.links| - 1] == Link("canonical", value, [])
    ensures forall i :: 0 <= i < |r.links| ==> r.links[i].rel == "canonical" ==> r.links[i].href == value
    ensures r.links[..|r.links| - 1] == WithoutRel(reg.links, "canonical")
    ensures Assigned(reg.og, r.og, OgKey("url"), ContentEntry(value))
    ensures r.meta == reg.meta && r.twitter == reg.twitter && r.jsonLd == reg.jsonLd
  {
    Og(ReplaceLink(reg, "canonical", value, []), "url", value)
  }

  /** `jsonld($schema)`: append one document. */
  function JsonLd(reg: Registry, doc: Schema): (r: Registry)
    ensures |r.jsonLd| == |reg.jsonLd| + 1 && r.jsonLd[|reg.jsonLd|] == doc
    ensures r.jsonLd[..|reg.jsonLd|] == reg.jsonLd
    ensures r.meta == reg.meta && r.links == reg.links && r.og == reg.og && r.twitter == reg.twitter
  {
    var docs := reg.jsonLd + [doc];
    assert docs[..|reg.jsonLd|] == reg.jsonLd;
    reg.(jsonLd := docs)
  }

  // ---------------------------------------------------------------------
  // Accessors
  // ---------------------------------------------------------------------

  /**
   * `getMeta($key, $default)`: the text content of a `title` tag, the
   * `content` attribute of a `meta` tag, the `href` attribute of a `link`
   * tag; `default` otherwise.
   */
  function GetMeta(reg: Registry, key: string, default: Option<string>): (r: Option<string>)
    ensures !HasKey(reg.meta, key) ==> r == default
    ensures r != default ==>
              && HasKey(reg.meta, key)
              && var e := Get(reg.meta, key).value;
                 r == e.content || r == Get(e.attributes, "content") || r == Get(e.attributes, "href")
  {
    match Get(reg.meta, key)
    case None => default
    case Some(e) =>
      if e.tag == "title" then e.content.OrElse(default)
      else if e.tag == "meta" then Get(e.attributes, "content").OrElse(default)
      else if e.tag == "link" then Get(e.attributes, "href").OrElse(default)
      else default
  }

  /** The `content` attribute of the entry under `key` in `m`, else `default`. */
  function ContentOf(m: OMap<Entry>, key: string, default: Option<string>): (r: Option<string>)
    ensures !HasKey(m, key) ==> r == default
    ensures r != default ==> HasKey(m, key) && r == Get(Get(m, key).value.attributes, "content")
  {
    match Get(m, key)
    case None => default
    case Some(e) => Get(e.attributes, "content").OrElse(default)
  }

  /** `getOg($key, $default)`; `key` is the full key, such as `og:url`. */
  function GetOg(reg: Registry, key: string, default: Option<string>): (r: Option<string>)
    ensures !HasKey(reg.og, key) ==> r == default
    ensures r != default ==> HasKey(reg.og, key) && r == Get(Get(reg.og, key).value.attributes, "content")
  {
    ContentOf(reg.og, key, default)
  }

  /** `getTwitter($key, $default)`; `key` is the full key, such as `twitter:image`. */
  function GetTwitter(reg: Registry, key: string, default: Option<string>): (r: Option<string>)
    ensures !HasKey(reg.twitter, key) ==> r == default
    ensures r != default ==> HasKey(reg.twitter, key) && r == Get(Get(reg.twitter, key).value.attributes, "content")
  {
    ContentOf(reg.twitter, key, default)
  }
}
