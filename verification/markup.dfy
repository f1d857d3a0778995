/**
 * `render()`: the registry written out as markup. Meta entries come first,
 * then links, then Open Graph and Twitter entries, one element per line,
 * followed by one script block per JSON-LD document. HTML escaping of
 * attribute values and JSON encoding of documents are parameters: the
 * former is PHP's `htmlentities`, the latter `json_encode`.
 */
module Markup {
  import opened Wrappers
  import opened OrderedMap
  import opened MetaTags
  import Html

  /**
   * One HTML element about to be written. It has the shape of a stored
   * entry; its attributes are the final ones, after `name` (or `rel` and
   * `href`) have been merged in front of the stored ones.
   */
  type Element = Entry

  /**
   * The element for a meta, og or twitter entry: its attributes are
   * `array_merge(['name' => $key], $attributes)`, so `name` comes first and
   * a stored `name` attribute replaces the key as its value.
   */
  function EntryElement(key: string, e: Entry): (el: Element)
    ensures el.tag == e.tag && el.content == e.content
    ensures |el.attributes| >= 1 && el.attributes[0].0 == "name"
    ensures Get(el.attributes, "name") == Get(e.attributes, "name").OrElse(Some(key))
    ensures forall k :: k != "name" ==> Get(el.attributes, k) == Get(e.attributes, k)
    ensures el.attributes[1..] == DropKeys(e.attributes, {"name"})
  {
    var first: Attributes := [("name", key)];
    assert HasKey(first, "name") by { assert first[0].0 == "name"; }
    assert forall k :: HasKey(first, k) <==> k == "name";
    assert Keys(first) == {"name"};
    Entry(e.tag, Merge(first, e.attributes), e.content)
  }

  /**
   * The element for a link record: `rel` first, `href` second, then the
   * stored attributes, which may replace either value.
   */
  function LinkElement(l: Link): (el: Element)
    ensures el.tag == "link" && el.content == None
    ensures |el.attributes| >= 2 && el.attributes[0].0 == "rel" && el.attributes[1].0 == "href"
    ensures Get(el.attributes, "rel") == Get(l.attributes, "rel").OrElse(Some(l.rel))
    ensures Get(el.attributes, "href") == Get(l.attributes, "href").OrElse(Some(l.href))
    ensures forall k :: k != "rel" && k != "href" ==> Get(el.attributes, k) == Get(l.attributes, k)
    ensures el.attributes[2..] == DropKeys(l.attributes, {"rel", "href"})
  {
    assert |"rel"| != |"href"|;
    var first: Attributes := [("rel", l.rel), ("href", l.href)];
    assert HasKey(first, "rel") by { assert first[0].0 == "rel"; }
    assert HasKey(first, "href") by { assert first[1].0 == "href"; }
    assert forall k :: HasKey(first, k) <==> k == "rel" || k == "href";
    assert Keys(first) == {"rel", "href"};
    Entry("link", Merge(first, l.attributes), None)
  }

  /** One element per entry, in the map's order. */
  function EntryElements(m: seq<(string, Entry)>): (els: seq<Element>)
    ensures |els| == |m|
    ensures forall i :: 0 <= i < |m| ==> els[i] == EntryElement(m[i].0, m[i].1)
  {
    if |m| == 0 then []
    else [EntryElement(m[0].0, m[0].1)] + EntryElements(m[1..])
  }

  /** One element per link, in the list's order. */
  function LinkElements(links: seq<Link>): (els: seq<Element>)
    ensures |els| == |links|
    ensures forall i :: 0 <= i < |links| ==> els[i] == LinkElement(links[i])
  {
    if |links| == 0 then []
    else [LinkElement(links[0])] + LinkElements(links[1..])
  }

  /** Every element `render()` writes, in the order it writes them. */
  function Elements(reg: Registry): seq<Element> {
    EntryElements(reg.meta) + LinkElements(reg.links) + EntryElements(reg.og) + EntryElements(reg.twitter)
  }

  /** ` key="escaped value"` for every attribute, in order. */
  function AttrText(attributes: seq<(string, string)>, escape: string -> string): string {
    if |attributes| == 0 then ""
    else
      " " + attributes[0].0 + "=\"" + escape(attributes[0].1) + "\""
      + AttrText(attributes[1..], escape)
  }

  /** One attribute is written as ` key="escaped value"`. */
  lemma AttrTextSingle(key: string, value: string, escape: string -> string)
    ensures AttrText([(key, value)], escape) == " " + key + "=\"" + escape(value) + "\""
  {
    assert [(key, value)][1..] == [];
  }

  /** The attribute text of a concatenation is the concatenation of the attribute texts. */
  lemma {:induction false} AttrTextAppend(a: seq<(string, string)>, b: seq<(string, string)>, escape: string -> string)
    ensures AttrText(a + b, escape) == AttrText(a, escape) + AttrText(b, escape)
    decreases |a|
  {
    if |a| == 0 {
      assert a + b == b;
    } else {
      assert (a + b)[1..] == a[1..] + b;
      AttrTextAppend(a[1..], b, escape);
    }
  }

  /**
   * `createTag($tag, $attributes, $content)`: `<`, the tag name, the attribute text, `>`, and for
   * an element with content the content unescaped followed by the closing tag.
   */
  function CreateTag(el: Element, escape: string -> string): (r: string)
    ensures |r| > |el.tag| && r[..|el.tag| + 1] == "<" + el.tag
    ensures var attrs := AttrText(el.attributes, escape);
      |r| > |el.tag| + 1 + |attrs|
      && r[|el.tag| + 1..|el.tag| + 1 + |attrs|] == attrs
      && r[|el.tag| + 1 + |attrs|] == '>'
    ensures el.content.None? ==> |r| == |el.tag| + 2 + |AttrText(el.attributes, escape)|
    ensures el.content.Some? ==>
      var start := |el.tag| + 2 + |AttrText(el.attributes, escape)|;
      |r| == start + |el.content.value| + |el.tag| + 3
      && r[start..start + |el.content.value|] == el.content.value
      && r[|r| - (|el.tag| + 3)..] == "</" + el.tag + ">"
  {
    var attrs := AttrText(el.attributes, escape);
    var open := "<" + el.tag + attrs;
    assert open[..|el.tag| + 1] == "<" + el.tag;
    assert open[|el.tag| + 1..] == attrs;
    match el.content
    case None =>
      var r := open + ">";
      assert r[..|el.tag| + 1] == open[..|el.tag| + 1];
      assert r[|el.tag| + 1..|open|] == open[|el.tag| + 1..];
      r
    case Some(text) =>
      var close := "</" + el.tag + ">";
      var head := open + ">";
      var r := head + text + close;
      assert r[..|el.tag| + 1] == open[..|el.tag| + 1];
      assert r[|el.tag| + 1..|open|] == open[|el.tag| + 1..];
      assert r[|head|..|head| + |text|] == text;
      assert r[|r| - |close|..] == close;
      r
  }

  /** Each element's tag followed by a newline. */
  function Lines(els: seq<Element>, escape: string -> string): string {
    if |els| == 0 then ""
    else CreateTag(els[0], escape) + "\n" + Lines(els[1..], escape)
  }

  /** The wrapper around one encoded JSON-LD document. No newline follows it. */
  function ScriptBlock(doc: Json, encode: Json -> string): string {
    "<script type=\"application/ld+json\">\n" + encode(doc) + "\n</script>"
  }

  function Scripts(docs: seq<Json>, encode: Json -> string): string {
    if |docs| == 0 then ""
    else ScriptBlock(docs[0], encode) + Scripts(docs[1..], encode)
  }

  // ---------------------------------------------------------------------
  // The output and its order
  // ---------------------------------------------------------------------

  lemma {:induction false} LinesAppend(a: seq<Element>, b: seq<Element>, escape: string -> string)
    ensures Lines(a + b, escape) == Lines(a, escape) + Lines(b, escape)
  {
    if |a| > 0 {
      assert (a + b)[0] == a[0];
      assert (a + b)[1..] == a[1..] + b;
      LinesAppend(a[1..], b, escape);
    } else {
      assert a + b == b;
    }
  }

  /**
   * `render()`: four loops over the namespaces, then the JSON-LD blocks.
   * The output is one line per element, meta entries first, then links,
   * then og, then twitter, followed by the JSON-LD blocks.
   */
  function Render(reg: Registry, escape: string -> string, encode: Json -> string): (r: string)
    ensures r == Lines(Elements(reg), escape) + Scripts(reg.jsonLd, encode)
  {
    var m, l, o, t := EntryElements(reg.meta), LinkElements(reg.links), EntryElements(reg.og), EntryElements(reg.twitter);
    LinesAppend(m + l + o, t, escape);
    LinesAppend(m + l, o, escape);
    LinesAppend(m, l, escape);
    Lines(m, escape) + Lines(l, escape) + Lines(o, escape) + Lines(t, escape) + Scripts(reg.jsonLd, encode)
  }

  lemma {:induction false} ScriptsAppend(docs: seq<Json>, doc: Json, encode: Json -> string)
    ensures Scripts(docs + [doc], encode) == Scripts(docs, encode) + ScriptBlock(doc, encode)
  {
    if |docs| > 0 {
      assert (docs + [doc])[1..] == docs[1..] + [doc];
      ScriptsAppend(docs[1..], doc, encode);
    } else {
      assert docs + [doc] == [doc];
    }
  }

  /** Concatenation of strings is associative. */
  lemma ConcatAssoc(a: string, b: string, c: string)
    ensures a + (b + c) == (a + b) + c
  {
  }

  /** Two registries that differ only by one more document render one script block apart. */
  lemma RenderOneMoreDoc(reg: Registry, next: Registry, doc: Json, escape: string -> string, encode: Json -> string)
    requires next.meta == reg.meta && next.links == reg.links && next.og == reg.og && next.twitter == reg.twitter
    requires next.jsonLd == reg.jsonLd + [doc]
    ensures Render(next, escape, encode) == Render(reg, escape, encode) + ScriptBlock(doc, encode)
  {
    assert Elements(next) == Elements(reg);
    var lines := Lines(Elements(reg), escape);
    var before, block := Scripts(reg.jsonLd, encode), ScriptBlock(doc, encode);
    ScriptsAppend(reg.jsonLd, doc, encode);
    assert Render(next, escape, encode) == lines + Scripts(next.jsonLd, encode);
    assert Scripts(next.jsonLd, encode) == before + block;
    assert Render(reg, escape, encode) == lines + before;
    ConcatAssoc(lines, before, block);
  }

  /** `jsonld($doc)` adds exactly its script block at the very end of the output. */
  lemma RenderAfterJsonLd(reg: Registry, doc: Schema, escape: string -> string, encode: Json -> string)
    ensures Render(JsonLd(reg, doc), escape, encode) == Render(reg, escape, encode) + ScriptBlock(doc, encode)
  {
    var r := JsonLd(reg, doc);
    assert r.jsonLd == reg.jsonLd + [doc];
    RenderOneMoreDoc(reg, r, doc, escape, encode);
  }

  // ---------------------------------------------------------------------
  // Quoting
  // ---------------------------------------------------------------------

  /** Occurrences of `c` in `s`. */
  function CountChar(s: string, c: char): nat {
    if |s| == 0 then 0
    else (if s[0] == c then 1 else 0) + CountChar(s[1..], c)
  }

  lemma {:induction false} CountCharAppend(a: string, b: string, c: char)
    ensures CountChar(a + b, c) == CountChar(a, c) + CountChar(b, c)
  {
    if |a| > 0 {
      assert (a + b)[1..] == a[1..] + b;
      CountCharAppend(a[1..], b, c);
    } else {
      assert a + b == b;
    }
  }

  lemma {:induction false} CountCharAbsent(s: string, c: char)
    requires c !in s
    ensures CountChar(s, c) == 0
  {
    if |s| > 0 {
      assert s[0] != c;
      assert forall i :: 0 <= i < |s[1..]| ==> s[1..][i] == s[i + 1];
      CountCharAbsent(s[1..], c);
    }
  }

  /**
   * With an escape function that never outputs `"`, and attribute names
   * free of `"`, the only double quotes in the attribute text are the two
   * around each value: no value can close its attribute early.
   */
  lemma {:induction false} AttrTextQuotes(attributes: seq<(string, string)>, escape: string -> string)
    requires forall i :: 0 <= i < |attributes| ==> '"' !in attributes[i].0
    requires forall s :: '"' !in escape(s)
    ensures CountChar(AttrText(attributes, escape), '"') == 2 * |attributes|
  {
    if |attributes| > 0 {
      var k, v := attributes[0].0, attributes[0].1;
      AttrTextQuotes(attributes[1..], escape);
      CountCharAbsent(k, '"');
      CountCharAbsent(escape(v), '"');
      assert CountChar(" ", '"') == 0;
      assert CountChar("=\"", '"') == 1;
      assert CountChar("\"", '"') == 1;
      CountCharAppend(" ", k, '"');
      CountCharAppend(" " + k, "=\"", '"');
      CountCharAppend(" " + k + "=\"", escape(v), '"');
      CountCharAppend(" " + k + "=\"" + escape(v), "\"", '"');
      CountCharAppend(" " + k + "=\"" + escape(v) + "\"", AttrText(attributes[1..], escape), '"');
    }
  }

  /**
   * Every `"` of a tag is one of the two around an attribute value, when
   * the tag name, the attribute names and the text content contain none and
   * the escape function never outputs one.
   */
  lemma CreateTagQuotes(el: Element, escape: string -> string)
    requires '"' !in el.tag
    requires forall i :: 0 <= i < |el.attributes| ==> '"' !in el.attributes[i].0
    requires forall s :: '"' !in escape(s)
    requires el.content.Some? ==> '"' !in el.content.value
    ensures CountChar(CreateTag(el, escape), '"') == 2 * |el.attributes|
  {
    var attrs := AttrText(el.attributes, escape);
    AttrTextQuotes(el.attributes, escape);
    CountCharAbsent(el.tag, '"');
    CountCharAppend("<", el.tag, '"');
    CountCharAppend("<" + el.tag, attrs, '"');
    var open := "<" + el.tag + attrs;
    CountCharAppend(open, ">", '"');
    match el.content
    case None =>
    case Some(text) =>
      CountCharAbsent(text, '"');
      CountCharAppend(open + ">", text, '"');
      CountCharAppend("</", el.tag, '"');
      CountCharAppend("</" + el.tag, ">", '"');
      CountCharAppend(open + ">" + text, "</" + el.tag + ">", '"');
  }

  /** `EscapeReserved`, the ASCII behaviour of `htmlentities`, never outputs `"`. */
  lemma EscapeReservedQuoteFree()
    ensures forall s :: '"' !in Html.EscapeReserved(s)
  {
    forall s ensures '"' !in Html.EscapeReserved(s) {
      var r := Html.EscapeReserved(s);
      assert forall i :: 0 <= i < |r| ==> r[i] != '"';
    }
  }
}
