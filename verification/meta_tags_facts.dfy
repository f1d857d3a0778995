/**
 * Properties that relate several registry operations: what the accessors
 * read back after each builder, the link rules, and the markup a default
 * title produces.
 */
module MetaTagsFacts {
  import opened Wrappers
  import opened OrderedMap
  import opened MetaTags
  import opened Markup
  import Decimal

  // ---------------------------------------------------------------------
  // Accessors after builders
  // ---------------------------------------------------------------------

  /** `getMeta` resolves the value by the stored tag name. */
  lemma MetaThenGetMeta(reg: Registry, key: string, tag: string, attributes: Attributes,
                        content: Option<string>, default: Option<string>)
    ensures var r := Meta(reg, key, tag, attributes, content);
      && (tag == "title" ==> GetMeta(r, key, default) == content.OrElse(default))
      && (tag == "meta" ==> GetMeta(r, key, default) == Get(attributes, "content").OrElse(default))
      && (tag == "link" ==> GetMeta(r, key, default) == Get(attributes, "href").OrElse(default))
      && (tag != "title" && tag != "meta" && tag != "link" ==> GetMeta(r, key, default) == default)
  {
    var r := Meta(reg, key, tag, attributes, content);
    assert Get(r.meta, key) == Some(Entry(tag, attributes, content));
    assert |"title"| == 5 && |"meta"| == 4 && "meta"[0] != "link"[0];
  }

  /** `meta()` on one key leaves every other key's lookup unchanged. */
  lemma MetaKeepsOtherLookups(reg: Registry, key: string, tag: string, attributes: Attributes,
                              content: Option<string>, default: Option<string>)
    ensures forall k :: k != key ==>
              GetMeta(Meta(reg, key, tag, attributes, content), k, default) == GetMeta(reg, k, default)
  {
    var r := Meta(reg, key, tag, attributes, content);
    forall k | k != key
      ensures GetMeta(r, k, default) == GetMeta(reg, k, default)
    {
      assert Get(r.meta, k) == Get(reg.meta, k);
    }
  }

  /** `getOg` reads back the content `og()` stored, under the prefixed key. */
  lemma OgThenGetOg(reg: Registry, key: string, content: string, default: Option<string>)
    ensures GetOg(Og(reg, key, content), OgKey(key), default) == Some(content)
    ensures forall k :: k != OgKey(key) ==> GetOg(Og(reg, key, content), k, default) == GetOg(reg, k, default)
  {
    var r := Og(reg, key, content);
    assert Get(ContentEntry(content).attributes, "content") == Some(content);
    forall k | k != OgKey(key)
      ensures GetOg(r, k, default) == GetOg(reg, k, default)
    {
      assert Get(r.og, k) == Get(reg.og, k);
    }
  }

  /** `getTwitter` reads back the content `twitter()` stored, under the prefixed key. */
  lemma TwitterThenGetTwitter(reg: Registry, key: string, content: string, default: Option<string>)
    ensures GetTwitter(Twitter(reg, key, content), TwitterKey(key), default) == Some(content)
    ensures forall k :: k != TwitterKey(key) ==>
              GetTwitter(Twitter(reg, key, content), k, default) == GetTwitter(reg, k, default)
  {
    var r := Twitter(reg, key, content);
    assert Get(ContentEntry(content).attributes, "content") == Some(content);
    forall k | k != TwitterKey(key)
      ensures GetTwitter(r, k, default) == GetTwitter(reg, k, default)
    {
      assert Get(r.twitter, k) == Get(reg.twitter, k);
    }
  }

  /** The stored content of a `ContentEntry` is what `getOg`/`getTwitter` return. */
  lemma ContentOfEntry(m: OMap<Entry>, key: string, content: string, default: Option<string>)
    requires Get(m, key) == Some(ContentEntry(content))
    ensures ContentOf(m, key, default) == Some(content)
  {
    assert Get(ContentEntry(content).attributes, "content") == Some(content);
  }

  // ---------------------------------------------------------------------
  // title, description, robots
  // ---------------------------------------------------------------------

  /**
   * After `title(v, providers)`, each selected provider reads back `v`
   * under its title key; the others read back what they did before.
   */
  lemma TitleLookups(reg: Registry, value: string, providers: seq<string>, default: Option<string>)
    ensures GetMeta(Title(reg, value, providers), "title", default) ==
              if Selected(providers, "meta") then Some(value) else GetMeta(reg, "title", default)
    ensures GetOg(Title(reg, value, providers), OgKey("title"), default) ==
              if Selected(providers, "og") then Some(value) else GetOg(reg, OgKey("title"), default)
    ensures GetTwitter(Title(reg, value, providers), TwitterKey("title"), default) ==
              if Selected(providers, "twitter") then Some(value) else GetTwitter(reg, TwitterKey("title"), default)
  {
    var r := Title(reg, value, providers);
    if Selected(providers, "og") {
      ContentOfEntry(r.og, OgKey("title"), value, default);
    }
    if Selected(providers, "twitter") {
      ContentOfEntry(r.twitter, TwitterKey("title"), value, default);
    }
  }

  /** With no providers given, `title(v)` writes all three namespaces. */
  lemma TitleDefaults(reg: Registry, value: string, default: Option<string>)
    ensures GetMeta(Title(reg, value, []), "title", default) == Some(value)
    ensures GetOg(Title(reg, value, []), OgKey("title"), default) == Some(value)
    ensures GetTwitter(Title(reg, value, []), TwitterKey("title"), default) == Some(value)
  {
    assert Selected([], "meta") && Selected([], "og") && Selected([], "twitter");
    TitleLookups(reg, value, [], default);
  }

  /** A non-empty providers list that names no known provider writes nothing. */
  lemma TitleUnknownProviders(reg: Registry, value: string, providers: seq<string>)
    requires |providers| > 0
    requires forall i :: 0 <= i < |providers| ==>
               providers[i] != "meta" && providers[i] != "og" && providers[i] != "twitter"
    ensures Title(reg, value, providers) == reg
  {
    assert !Selected(providers, "meta") && !Selected(providers, "og") && !Selected(providers, "twitter");
  }

  /** With no providers given, `description(v)` writes all three namespaces. */
  lemma DescriptionDefaults(reg: Registry, value: string, default: Option<string>)
    ensures GetMeta(Description(reg, value, []), "description", default) == Some(value)
    ensures GetOg(Description(reg, value, []), OgKey("description"), default) == Some(value)
    ensures GetTwitter(Description(reg, value, []), TwitterKey("description"), default) == Some(value)
  {
    var r := Description(reg, value, []);
    assert Selected([], "meta") && Selected([], "og") && Selected([], "twitter");
    ContentOfEntry(r.og, OgKey("description"), value, default);
    ContentOfEntry(r.twitter, TwitterKey("description"), value, default);
    assert Get(ContentEntry(value).attributes, "content") == Some(value);
  }

  /** `robots(v)` reads back through `getMeta("robots")`. */
  lemma RobotsLookup(reg: Registry, value: string, default: Option<string>)
    ensures GetMeta(Robots(reg, value), "robots", default) == Some(value)
  {
    assert Get(ContentEntry(value).attributes, "content") == Some(value);
  }

  // ---------------------------------------------------------------------
  // image
  // ---------------------------------------------------------------------

  /** `image()` always sets `og:image` and `twitter:image`; the optional fields follow truthiness. */
  lemma ImageLookups(reg: Registry, value: string, width: Option<int>, height: Option<int>,
                     mime: Option<string>, default: Option<string>)
    ensures GetOg(Image(reg, value, width, height, mime), OgKey("image"), default) == Some(value)
    ensures GetTwitter(Image(reg, value, width, height, mime), TwitterKey("image"), default) == Some(value)
    ensures GetOg(Image(reg, value, width, height, mime), OgKey("image:width"), default) ==
              if IntTruthy(width) then Some(Decimal.IntToString(width.value))
              else GetOg(reg, OgKey("image:width"), default)
    ensures GetOg(Image(reg, value, width, height, mime), OgKey("image:heigth"), default) ==
              if IntTruthy(height) then Some(Decimal.IntToString(height.value))
              else GetOg(reg, OgKey("image:heigth"), default)
    ensures GetOg(Image(reg, value, width, height, mime), OgKey("image:type"), default) ==
              if StringTruthy(mime) then Some(mime.value)
              else GetOg(reg, OgKey("image:type"), default)
  {
    var r := Image(reg, value, width, height, mime);
    ContentOfEntry(r.og, OgKey("image"), value, default);
    ContentOfEntry(r.twitter, TwitterKey("image"), value, default);
    if IntTruthy(width) {
      ContentOfEntry(r.og, OgKey("image:width"), Decimal.IntToString(width.value), default);
    }
    if IntTruthy(height) {
      ContentOfEntry(r.og, OgKey("image:heigth"), Decimal.IntToString(height.value), default);
    }
    if StringTruthy(mime) {
      ContentOfEntry(r.og, OgKey("image:type"), mime.value, default);
    }
  }

  /** A width of 0 is skipped like a missing one, and so is the type string "0". */
  lemma ImageFalsyArguments(value: string, height: Option<int>)
    ensures !HasKey(Image(Empty, value, Some(0), height, Some("0")).og, OgKey("image:width"))
    ensures !HasKey(Image(Empty, value, Some(0), height, Some("0")).og, OgKey("image:type"))
    ensures !HasKey(Image(Empty, value, None, height, Some("")).og, OgKey("image:width"))
    ensures !HasKey(Image(Empty, value, None, height, Some("")).og, OgKey("image:type"))
  {
    assert !HasKey(Empty.og, OgKey("image:width")) && !HasKey(Empty.og, OgKey("image:type"));
  }

  // ---------------------------------------------------------------------
  // Links
  // ---------------------------------------------------------------------

  /** `addLink` never removes anything: adding the same `rel` twice keeps both. */
  lemma AddLinkKeepsDuplicates(reg: Registry, rel: string, href1: string, href2: string, attributes: Attributes)
    ensures CountRel(AddLink(AddLink(reg, rel, href1, attributes), rel, href2, attributes).links, rel)
              == CountRel(reg.links, rel) + 2
  {
  }

  /** Dropping one `rel` keeps the relative order of everything else. */
  lemma {:induction false} WithoutRelAppend(a: seq<Link>, b: seq<Link>, rel: string)
    ensures WithoutRel(a + b, rel) == WithoutRel(a, rel) + WithoutRel(b, rel)
    decreases |b|
  {
    if |b| == 0 {
      assert a + b == a;
    } else {
      var init := b[..|b| - 1];
      assert (a + b)[..|a + b| - 1] == a + init;
      assert (a + b)[|a + b| - 1] == b[|b| - 1];
      WithoutRelAppend(a, init, rel);
    }
  }

  /** Links that do not carry `rel` are left exactly as they were. */
  lemma {:induction false} WithoutRelUnaffected(links: seq<Link>, rel: string)
    requires forall i :: 0 <= i < |links| ==> links[i].rel != rel
    ensures WithoutRel(links, rel) == links
  {
    if |links| > 0 {
      var init := links[..|links| - 1];
      WithoutRelUnaffected(init, rel);
      assert init + [links[|links| - 1]] == links;
    }
  }

  /**
   * `canonical(a)` then `canonical(b)`: one canonical link, pointing at
   * `b`, and `og:url` reads back `b`.
   */
  lemma CanonicalTwice(reg: Registry, a: string, b: string, default: Option<string>)
    ensures CountRel(Canonical(Canonical(reg, a), b).links, "canonical") == 1
    ensures forall l :: l in Canonical(Canonical(reg, a), b).links && l.rel == "canonical" ==>
              l == Link("canonical", b, [])
    ensures GetOg(Canonical(Canonical(reg, a), b), OgKey("url"), default) == Some(b)
  {
    var r := Canonical(Canonical(reg, a), b);
    ContentOfEntry(r.og, OgKey("url"), b, default);
  }

  // ---------------------------------------------------------------------
  // Markup
  // ---------------------------------------------------------------------

  /** The element of an og or twitter entry: a `meta` tag with `name`, then `content`. */
  lemma ContentEntryElement(key: string, value: string)
    ensures EntryElement(key, ContentEntry(value)) == Entry("meta", [("name", key), ("content", value)], None)
  {
    var first: Attributes := [("name", key)];
    assert !HasKey(first, "content");
    assert Merge(first, [("content", value)]) == Put(first, "content", value);
  }

  /** `title(v)` on a fresh registry fills each keyed map with its one title entry. */
  lemma DefaultTitleState(value: string)
    ensures Title(Empty, value, []) ==
              Registry([("title", Entry("title", [], Some(value)))], [],
                       [(OgKey("title"), ContentEntry(value))],
                       [(TwitterKey("title"), ContentEntry(value))], [])
  {
    assert Selected([], "meta") && Selected([], "og") && Selected([], "twitter");
  }

  /**
   * `title(v)` on a fresh registry renders three elements: a `title`
   * element whose text content is `v`, then the og and twitter `meta` tags
   * carrying `v` in their `content` attribute; there is no script block.
   */
  lemma RenderDefaultTitle(value: string, escape: string -> string, encode: Json -> string)
    ensures Render(Title(Empty, value, []), escape, encode) ==
              Lines([Entry("title", [("name", "title")], Some(value)),
                     Entry("meta", [("name", OgKey("title")), ("content", value)], None),
                     Entry("meta", [("name", TwitterKey("title")), ("content", value)], None)], escape)
  {
    var te := Entry("title", [], Some(value));
    var r := Title(Empty, value, []);
    DefaultTitleState(value);
    ContentEntryElement(OgKey("title"), value);
    ContentEntryElement(TwitterKey("title"), value);
    var t, o, w := EntryElement("title", te), EntryElement(OgKey("title"), ContentEntry(value)),
                   EntryElement(TwitterKey("title"), ContentEntry(value));
    assert EntryElements(r.meta) == [t];
    assert EntryElements(r.og) == [o];
    assert EntryElements(r.twitter) == [w];
    assert LinkElements(r.links) == [];
    assert Elements(r) == [t, o, w];
  }
}
