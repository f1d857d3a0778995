# meta-tags registry in Dafny

A model of the `MetaTags` tag registry of the `woren951/meta-tags` PHP
package. The registry collects what goes into a page head:

- three insertion-ordered keyed maps of tags: generic `meta` entries, Open
  Graph (`og:*`) entries and Twitter-card (`twitter:*`) entries;
- a list of link records `{rel, href, attributes}`;
- a list of JSON-LD documents.

Builder operations (`title`, `description`, `canonical`, `robots`, `image`,
`meta`, `og`, `twitter`, `addLink`, `replaceLink`, `jsonld`) change that
state, the accessors `getMeta`, `getOg` and `getTwitter` read values back,
and `render` writes everything out as markup.

The model is functional: a `Registry` value holds the five pieces of state,
every builder is a pure function from registry to registry, and `Render` is a
pure function from registry to string.

| file | module | contents |
|---|---|---|
| `wrappers.dfy` | `Wrappers` | `Option`, standing for PHP `null`, and `??` as `OrElse` |
| `ordered_map.dfy` | `OrderedMap` | PHP arrays with string keys: lookup, assignment, `array_merge` |
| `decimal.dfy` | `Decimal` | PHP's int-to-string conversion and its inverse |
| `html.dfy` | `Html` | `htmlentities(…, ENT_QUOTES)` on the five reserved ASCII characters |
| `meta_tags.dfy` | `MetaTags` | the registry state, the builders and the accessors |
| `markup.dfy` | `Markup` | `render` and `createTag` |
| `meta_tags_facts.dfy` | `MetaTagsFacts` | lemmas that relate builders, accessors and markup |

Choices worth knowing when reading the model:

- A PHP array with string keys is an `OMap<V>`: a sequence of key/value
  pairs whose keys are unique. The uniqueness is part of the type.
  Assignment (`Put`) follows PHP: an existing key keeps its slot, and a new
  key is appended. The predicate `Assigned` states this effect as a caller
  sees it. Every keyed builder's contract is stated through it, except
  `image()`, whose four og writes are stated through `Get` and `Extends`.
- `og($key)` stores under `"og:" . $key`. In the model this key is written
  `OgKey(key)`, and `twitter:` keys are written `TwitterKey(key)`. The
  accessors take the full key, as in the code. `getOg("og:url")` is
  `GetOg(reg, OgKey("url"), d)`.
- PHP `null` is `None`. An optional argument or an absent lookup is an
  `Option`.
- `image()` tests its optional arguments for PHP truthiness. A width or
  height of `0` is skipped like a missing one (`IntTruthy`). A type of `""`
  or of `"0"` is skipped too (`StringTruthy`).
- The height key is spelled `og:image:heigth` in the code, and the model
  keeps that spelling. Open Graph names the property `og:image:height`.
- The code stores the canonical URL as a link record with `rel` set to
  `canonical`, replacing any earlier ones. It also mirrors the URL into
  `og:url`.
- `render` escapes attribute values only. Attribute names, tag names and the
  text content of an element (the `<title>` text) are written as they are.
  `title()` stores its meta entry under key `title` with tag `title`, so the
  rendered element is `<title name="title">…</title>`.
- The JSON-LD script blocks are not followed by a newline. Two documents
  give `…</script><script …>` on one line.
- `render` reads the registry and returns a string; it cannot change the
  registry. Two calls with nothing in between give the same output because
  `Render` is a function.

## Model

| member | source | states |
|---|---|---|
| `OrderedMap.Get` | src/Managers/MetaTags.php:341 | a lookup finds a value exactly when the key is present, and the value found is the one stored under that key |
| `OrderedMap.Put` | src/Managers/MetaTags.php:161-165 | array assignment: the key maps to the new value; every other key keeps its value; an existing key keeps its slot and all keys keep their order; a new key is appended after all others |
| `OrderedMap.Merge` | src/Managers/MetaTags.php:267-270 | `array_merge` on string keys: the second array wins on shared keys; the first array's keys keep their slots; after them come exactly the second array's entries with other keys, in the second array's order (`DropKeys`, an independent filter) |
| `Decimal.IntToString` | src/Managers/MetaTags.php:136 | the string a PHP int is coerced to is the shortest numeral: a non-empty run of digits without a leading zero (except `0` itself), with a leading `-` exactly for negative values |
| `Decimal.DecimalRoundTrip` | src/Managers/MetaTags.php:136 | the decimal digits of a natural number read back as that number |
| `Decimal.IntToStringRoundTrip` | src/Managers/MetaTags.php:136-141 | the width or height string written by `image()` parses back to the integer passed in, so distinct sizes give distinct strings |
| `Html.EscapeReserved` | src/Managers/MetaTags.php:379-382 | the escaped text contains no `"`, `'`, `<` or `>`; every `&` in it opens one of the five entities `&amp;`, `&lt;`, `&gt;`, `&quot;`, `&#039;`; it is no shorter than the input; `EscapeRoundTrip` decodes it back |
| `Html.EscapeRoundTrip` | src/Managers/MetaTags.php:379-382 | escaping loses nothing: decoding the five entities recovers the original text |
| `MetaTags.Meta` | src/Managers/MetaTags.php:159-168 | `meta()` assigns the entry `{tag, attributes, content}` to its key in the meta map, with overwrite-in-place semantics, and touches nothing else |
| `MetaTags.Og` | src/Managers/MetaTags.php:215-226 | `og()` assigns a `meta` entry with a single `content` attribute under `og:` plus the key, with overwrite-in-place semantics, and touches nothing else |
| `MetaTags.Twitter` | src/Managers/MetaTags.php:233-244 | `twitter()` assigns a `meta` entry with a single `content` attribute under `twitter:` plus the key, with overwrite-in-place semantics, and touches nothing else |
| `MetaTags.Title` | src/Managers/MetaTags.php:37-60 | each selected provider gets its title entry (`title` tag with the value as text; `og:title` and `twitter:title` with the value as content); an empty provider list selects all three; unselected namespaces, links and documents are unchanged |
| `MetaTags.Description` | src/Managers/MetaTags.php:67-92 | each selected provider gets its description entry with the value as content; an empty provider list selects all three; everything else is unchanged |
| `MetaTags.Robots` | src/Managers/MetaTags.php:111-118 | `robots()` assigns a `meta` tag with the value as content under key `robots`, and touches nothing else |
| `MetaTags.OgIf` | src/Managers/MetaTags.php:135-145 | a guarded `og()` call: when the guard holds, the key is assigned with overwrite-in-place semantics; otherwise the registry is unchanged |
| `MetaTags.ImageOg` | src/Managers/MetaTags.php:133-145 | `og:image` is always set; width, height and type are set only when their argument is truthy; no other og key changes; existing og keys keep their slots, and the new keys follow in the order image, width, heigth, type (`ImageWrites`) |
| `MetaTags.Image` | src/Managers/MetaTags.php:127-150 | the og effects above, including the slot and append order of the og keys, plus `twitter:image` always assigned the value; meta, links and documents unchanged |
| `MetaTags.WithoutRel` | src/Managers/MetaTags.php:195-199 | the removal loop keeps exactly the links with another `rel`, leaves none with this `rel`, and keeps the count of every other `rel` |
| `MetaTags.AddLink` | src/Managers/MetaTags.php:176-185 | one record is appended after the existing, unchanged links, and the count of its `rel` grows by one, duplicates included |
| `MetaTags.ReplaceLink` | src/Managers/MetaTags.php:193-208 | afterwards exactly one link has this `rel`; it is the last one and carries the new `href` and attributes; the links before it are the old ones without this `rel`; counts of other `rel`s are unchanged |
| `MetaTags.Canonical` | src/Managers/MetaTags.php:98-105 | exactly one canonical link survives, it is last and every canonical link points at the new URL; the links before it are the old links of other `rel`s, in their order; `og:url` is assigned the URL |
| `MetaTags.JsonLd` | src/Managers/MetaTags.php:249-255 | the document, which is a list or an object as `array $schema` demands (the type `Schema`), is appended after the existing, unchanged documents; the other state is unchanged |
| `Markup.EntryElement` | src/Managers/MetaTags.php:264-273 | a meta/og/twitter entry renders with `name` as its first attribute; a stored `name` replaces the key as its value; after it come the stored attributes other than `name`, in their stored order; tag and text content are the entry's |
| `Markup.LinkElement` | src/Managers/MetaTags.php:275-285 | a link renders as a `link` element with no content, `rel` first and `href` second; stored attributes override either value; after them come the stored attributes other than `rel` and `href`, in their stored order |
| `Markup.EntryElements` | src/Managers/MetaTags.php:264 | one element per entry, in the map's order |
| `Markup.LinkElements` | src/Managers/MetaTags.php:275 | one element per link, in the list's order |
| `Markup.Render` | src/Managers/MetaTags.php:260-312 | the output is one line per element, meta entries first, then links, then og, then twitter, each in stored order, then the JSON-LD blocks; `RenderAfterJsonLd` and `MetaTagsFacts.RenderDefaultTitle` pin it down further |
| `Markup.ScriptsAppend` | src/Managers/MetaTags.php:305-309 | the script blocks follow the document list's order |
| `Markup.RenderAfterJsonLd` | src/Managers/MetaTags.php:250-309 | adding a JSON-LD document appends exactly its script block to the end of the output |
| `Markup.CreateTag` | src/Managers/MetaTags.php:360-373 | the tag is `<`, the tag name, the attribute text of the element's attributes in order, then `>`; without content nothing follows; with content the content follows unescaped and then the closing tag `</name>`; `CreateTagQuotes` bounds its quotes |
| `Markup.AttrTextSingle` | src/Managers/MetaTags.php:364-366 | one attribute is written as a space, its key, `="`, its escaped value and `"` |
| `Markup.AttrTextAppend` | src/Managers/MetaTags.php:364-366 | the loop writes the attributes in order: the text for `a + b` is the text for `a` followed by the text for `b` |
| `Markup.AttrTextQuotes` | src/Managers/MetaTags.php:364-366 | with an escape function that never outputs `"` and attribute names without `"`, the attribute text holds exactly two `"` per attribute, so no value can end its attribute early |
| `Markup.CreateTagQuotes` | src/Managers/MetaTags.php:360-373 | the same count holds for a whole element, with or without text content |
| `Markup.EscapeReservedQuoteFree` | src/Managers/MetaTags.php:379-382 | the ASCII escaping meets the condition of the two quote lemmas |
| `MetaTags.GetMeta` | src/Managers/MetaTags.php:319-332 | an absent key gives the default; any other result is the stored entry's text, `content` or `href`; `MetaTagsFacts.MetaThenGetMeta` fixes which one for each tag |
| `MetaTags.GetOg` | src/Managers/MetaTags.php:339-342 | an absent key gives the default; any other result is the stored entry's `content` attribute; `MetaTagsFacts.OgThenGetOg` relates it to `og()` |
| `MetaTags.GetTwitter` | src/Managers/MetaTags.php:349-352 | an absent key gives the default; any other result is the stored entry's `content` attribute; `MetaTagsFacts.TwitterThenGetTwitter` relates it to `twitter()` |
| `MetaTagsFacts.MetaThenGetMeta` | src/Managers/MetaTags.php:319-332 | after `meta()`, `getMeta` returns the text of a `title` tag, the `content` attribute of a `meta` tag, the `href` attribute of a `link` tag, the default for any other tag, and the default when the field read is missing |
| `MetaTagsFacts.MetaKeepsOtherLookups` | src/Managers/MetaTags.php:159-168 | `meta()` on one key leaves `getMeta` on every other key unchanged |
| `MetaTagsFacts.OgThenGetOg` | src/Managers/MetaTags.php:339-342 | `getOg` on the prefixed key returns what `og()` stored; other keys read back as before |
| `MetaTagsFacts.TwitterThenGetTwitter` | src/Managers/MetaTags.php:349-352 | `getTwitter` on the prefixed key returns what `twitter()` stored; other keys read back as before |
| `MetaTagsFacts.TitleLookups` | src/Managers/MetaTags.php:37-60 | after `title(v, providers)`, each selected provider reads back `v` under its title key and each unselected one reads back what it did before |
| `MetaTagsFacts.TitleDefaults` | src/Managers/MetaTags.php:39-45 | with no providers, `getMeta("title")`, `getOg("og:title")` and `getTwitter("twitter:title")` all return `v` |
| `MetaTagsFacts.TitleUnknownProviders` | src/Managers/MetaTags.php:47-57 | a non-empty providers list naming none of `meta`, `og`, `twitter` leaves the registry unchanged |
| `MetaTagsFacts.DescriptionDefaults` | src/Managers/MetaTags.php:67-92 | with no providers, the description reads back from all three namespaces |
| `MetaTagsFacts.RobotsLookup` | src/Managers/MetaTags.php:111-118 | `getMeta("robots")` returns the robots value |
| `MetaTagsFacts.ImageLookups` | src/Managers/MetaTags.php:127-150 | after `image()`, `og:image` and `twitter:image` read back the URL; width, height and type read back their value when truthy and their earlier value otherwise |
| `MetaTagsFacts.ImageFalsyArguments` | src/Managers/MetaTags.php:135-145 | a width of 0 and a missing width write no width entry; a type of `"0"` or `""` writes no type entry |
| `MetaTagsFacts.AddLinkKeepsDuplicates` | src/Managers/MetaTags.php:176-185 | adding two links with the same `rel` keeps both |
| `MetaTagsFacts.WithoutRelAppend` | src/Managers/MetaTags.php:195-199 | removing one `rel` keeps the relative order of the remaining links |
| `MetaTagsFacts.WithoutRelUnaffected` | src/Managers/MetaTags.php:195-199 | links that do not carry the `rel` are left exactly as they were |
| `MetaTagsFacts.CanonicalTwice` | src/Managers/MetaTags.php:98-105 | `canonical(a)` then `canonical(b)` leaves one canonical link, equal to the one for `b`, and `og:url` reads back `b` |
| `MetaTagsFacts.ContentEntryElement` | src/Managers/MetaTags.php:287-293 | an og or twitter entry renders as a `meta` element with attributes `name` then `content` and no text |
| `MetaTagsFacts.DefaultTitleState` | src/Managers/MetaTags.php:37-60 | `title(v)` on a fresh registry leaves exactly one title entry in each keyed map and nothing else |
| `MetaTagsFacts.RenderDefaultTitle` | src/Managers/MetaTags.php:260-303 | `title(v)` on a fresh registry renders three lines: a `title` element with text `v`, then the og and twitter `meta` tags with `v` as content |

## Left out

- `src/Providers/MetaTagsServiceProvider.php`: it registers the class as a framework singleton and holds no logic.
- Method chaining (`return $this`): each builder returns the new registry instead.
- The full `htmlentities` table. `Render` takes the escape function as a parameter. `Html.EscapeReserved` gives its exact behaviour on ASCII text. Named entities for non-ASCII characters (`é` to `&eacute;`) come from PHP's entity table and are not modelled.
- `json_encode` with pretty printing and unescaped slashes: `Render` takes the encoder as a parameter, and documents are opaque values (`Json`, without floats).
- Integer keys. PHP turns a numeric string key into an integer key, and `array_merge` renumbers integer keys. The model's keys are all strings; list-style attribute arrays are not modelled.
- Non-string values. Attribute values, providers and lookup defaults are strings (or null) in the model. PHP would coerce other values or compare them loosely: `in_array('meta', [true])` is true in PHP.
- `getMeta`, `getOg` and `getTwitter` accept any PHP value as the default. The model takes an optional string.
- PHP's 64-bit integer range for `image()` sizes. The model takes unbounded integers; no arithmetic is done on them, so nothing wraps.
- `Markup.CreateTagQuotes`: stated for text content without `"`. The content is not escaped, so a `"` in it adds to the count.
- `MetaTagsFacts.CanonicalTwice`: stated on link records. A link added with `addLink` whose attributes override `rel` with `canonical` would also render as a canonical link.
