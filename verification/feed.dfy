/**
  The offer model shared by the one-shot generator and the scheduled update job:
  an offer element with its attributes and ordered children, the first-match
  lookups both pipelines use to read it, the pricing index built from the
  secondary feed, and the rewrite steps that both pipelines perform the same way.

  The two pipelines differ in how a child's tag is compared with a plain name:
  the generator strips an ElementTree namespace prefix (`local_name`), the update
  job compares the tag as it is (lxml `find`). `Lookup` names the two.
 */
module Feed {
  import opened Wrappers
  import opened Text
  import opened Seqs

  /** A child element of an offer: tag, attributes and text (`None` when the element has no text). */
  datatype Child = Child(tag: string, attrs: map<string, string>, text: Option<string>)

  /** An offer element as a value: attributes and children in document order. */
  datatype Element = Element(attrs: map<string, string>, children: seq<Child>)

  /** An offer element that the pipelines rewrite in place. */
  class Offer {
    var attrs: map<string, string>
    var children: seq<Child>

    function Value(): Element
      reads this
    {
      Element(attrs, children)
    }

    constructor (e: Element)
      ensures Value() == e
    {
      attrs := e.attrs;
      children := e.children;
    }
  }

  const OLD_PRICE_TAGS: seq<string> := ["old_price", "oldprice", "price_old", "old", "priceold"]
  const ALLOWED_VENDORS: set<string> := {"мойдодыр", "dusel"}
  const ARTICLE_PARAM: string := "Артикул"
  const REQUIRED_TAGS: seq<string> := ["name_ua", "name_ru", "description_ua", "description_ru", "price", "categoryId"]
  const MAX_PICTURES: nat := 12

  /** How a child's tag is compared with a plain name. */
  datatype Lookup = ByLocalName | ByTag

  /** `local_name`: the part of the tag after the first `}`, or the whole tag when it has none. */
  function LocalName(tag: string): (r: string)
    ensures |r| <= |tag|
  {
    var k := IndexOf(tag, '}');
    if k < |tag| then tag[k + 1..] else tag
  }

  /**
    A tag is its namespace prefix (up to and including the first `}`) followed by its local
    name; a tag without `}` is its own local name.
   */
  lemma LocalNameSplit(tag: string)
    ensures '}' !in tag ==> LocalName(tag) == tag
    ensures '}' in tag ==> exists p :: tag == p + "}" + LocalName(tag) && '}' !in p
  {
    var k := IndexOf(tag, '}');
    if k < |tag| {
      assert tag == tag[..k] + "}" + tag[k + 1..];
      assert forall j :: 0 <= j < k ==> tag[..k][j] != '}';
    }
  }

  function TagName(lookup: Lookup, c: Child): string {
    match lookup
    case ByLocalName => LocalName(c.tag)
    case ByTag => c.tag
  }

  predicate Named(lookup: Lookup, c: Child, name: string) {
    TagName(lookup, c) == name
  }

  /** A tag without a namespace prefix: a child created with it is found by that name under either lookup. */
  predicate PlainTag(tag: string) {
    '}' !in tag
  }

  /** The tags the pipelines create children with carry no namespace prefix. */
  lemma CreatedTagsPlain()
    ensures PlainTag("name_ru") && PlainTag("description_ru") && PlainTag("price") && PlainTag("old_price")
  {
  }

  lemma PlainTagNamed(lookup: Lookup, c: Child)
    requires PlainTag(c.tag)
    ensures Named(lookup, c, c.tag)
  {
    LocalNameSplit(c.tag);
  }

  /** `normalize_text(child.text)`. */
  function TextOf(c: Child): string {
    NormalizeText(c.text)
  }

  /** `attrib.get(key)`. */
  function AttrOf(attrs: map<string, string>, key: string): Option<string> {
    if key in attrs then Some(attrs[key]) else None
  }

  /** `normalize_text(offer.attrib.get(key))`. */
  function AttrText(attrs: map<string, string>, key: string): string {
    NormalizeText(AttrOf(attrs, key))
  }

  function NamedAs(lookup: Lookup, name: string): Child -> bool {
    c => Named(lookup, c, name)
  }

  /** `find_first_child` / lxml `find`: the index of the first child with that name, or the length. */
  function FindFirst(cs: seq<Child>, lookup: Lookup, name: string): nat {
    FirstIndex(cs, NamedAs(lookup, name))
  }

  /**
    `child_text`: the trimmed text of the first child with that name, or "" when there is
    none; an empty first child hides any later one.
   */
  function ChildText(e: Element, lookup: Lookup, name: string): (r: string)
    ensures IsTrimmed(r)
  {
    var k := FindFirst(e.children, lookup, name);
    if k < |e.children| then TextOf(e.children[k]) else ""
  }

  /** `child_text` reads the first child with the name, and only that one; "" when there is none. */
  lemma ChildTextIsFirst(e: Element, lookup: Lookup, name: string)
    ensures forall k :: 0 <= k < |e.children| && Named(lookup, e.children[k], name)
                        && (forall j :: 0 <= j < k ==> !Named(lookup, e.children[j], name))
                        ==> ChildText(e, lookup, name) == TextOf(e.children[k])
    ensures (forall k :: 0 <= k < |e.children| ==> !Named(lookup, e.children[k], name)) ==> ChildText(e, lookup, name) == ""
  {
    var cs := e.children;
    var p := NamedAs(lookup, name);
    assert forall c :: p(c) == Named(lookup, c, name);
    forall k | 0 <= k < |cs| && Named(lookup, cs[k], name) && (forall j :: 0 <= j < k ==> !Named(lookup, cs[j], name))
      ensures ChildText(e, lookup, name) == TextOf(cs[k])
    {
      FirstIndexUnique(cs, p, k);
    }
    if forall k :: 0 <= k < |cs| ==> !Named(lookup, cs[k], name) {
      FirstIndexUnique(cs, p, |cs|);
    }
  }

  /** A `param` child whose case-folded name is that of `paramName` and whose value is not empty. */
  predicate ParamMatches(lookup: Lookup, c: Child, paramName: string) {
    && Named(lookup, c, "param")
    && NormalizeKey(AttrOf(c.attrs, "name")) == NormalizeKey(Some(paramName))
    && TextOf(c) != ""
  }

  function ParamAs(lookup: Lookup, paramName: string): Child -> bool {
    c => ParamMatches(lookup, c, paramName)
  }

  /**
    `find_param_value`: the value of the first matching `param`; params with the right
    name but an empty value are skipped, and "" means there is none.
   */
  function FindParamValue(cs: seq<Child>, lookup: Lookup, paramName: string): (r: string)
    ensures forall k :: 0 <= k < |cs| && ParamMatches(lookup, cs[k], paramName)
                        && (forall j :: 0 <= j < k ==> !ParamMatches(lookup, cs[j], paramName))
                        ==> r == TextOf(cs[k])
    ensures r == "" <==> forall k :: 0 <= k < |cs| ==> !ParamMatches(lookup, cs[k], paramName)
  {
    ParamIsFirst(cs, lookup, paramName);
    var k := FirstIndex(cs, ParamAs(lookup, paramName));
    if k < |cs| then TextOf(cs[k]) else ""
  }

  lemma ParamIsFirst(cs: seq<Child>, lookup: Lookup, paramName: string)
    ensures forall k :: 0 <= k < |cs| && ParamMatches(lookup, cs[k], paramName)
                        && (forall j :: 0 <= j < k ==> !ParamMatches(lookup, cs[j], paramName))
                        ==> FirstIndex(cs, ParamAs(lookup, paramName)) == k
    ensures FirstIndex(cs, ParamAs(lookup, paramName)) == |cs| <==> forall k :: 0 <= k < |cs| ==> !ParamMatches(lookup, cs[k], paramName)
  {
    var p := ParamAs(lookup, paramName);
    assert forall c :: p(c) == ParamMatches(lookup, c, paramName);
    forall k | 0 <= k < |cs| && ParamMatches(lookup, cs[k], paramName) && (forall j :: 0 <= j < k ==> !ParamMatches(lookup, cs[j], paramName))
      ensures FirstIndex(cs, p) == k
    {
      FirstIndexUnique(cs, p, k);
    }
  }

  predicate IsArticle(lookup: Lookup, c: Child) {
    ParamMatches(lookup, c, ARTICLE_PARAM)
  }

  /**
    `resolve_offer_id_raw`: the first non-empty "Артикул" param value; failing that the
    `vendorCode` text; failing that the trimmed `id` attribute.
   */
  function ResolveOfferIdRaw(e: Element, lookup: Lookup): (r: string)
    ensures IsTrimmed(r)
    ensures forall k :: 0 <= k < |e.children| && IsArticle(lookup, e.children[k])
                        && (forall j :: 0 <= j < k ==> !IsArticle(lookup, e.children[j]))
                        ==> r == TextOf(e.children[k])
    ensures (forall k :: 0 <= k < |e.children| ==> !IsArticle(lookup, e.children[k])) ==>
              r == (if ChildText(e, lookup, "vendorCode") != "" then ChildText(e, lookup, "vendorCode")
                    else AttrText(e.attrs, "id"))
  {
    var article := FindParamValue(e.children, lookup, ARTICLE_PARAM);
    if article != "" then article
    else
      var vendorCode := ChildText(e, lookup, "vendorCode");
      if vendorCode != "" then vendorCode else AttrText(e.attrs, "id")
  }

  /** `resolve_offer_id_key`: the raw identity case-folded; empty exactly when the raw identity is. */
  function ResolveOfferIdKey(e: Element, lookup: Lookup): (r: string)
    ensures r == CaseFold(ResolveOfferIdRaw(e, lookup))
    ensures r == "" <==> ResolveOfferIdRaw(e, lookup) == ""
  {
    var raw := ResolveOfferIdRaw(e, lookup);
    TrimTrimmed(raw);
    NormalizeKey(Some(raw))
  }

  /** `extract_vendor`. */
  function ExtractVendor(e: Element, lookup: Lookup): string {
    NormalizeKey(Some(ChildText(e, lookup, "vendor")))
  }

  /** `extract_available`. */
  function ExtractAvailable(e: Element): string {
    AttrText(e.attrs, "available")
  }

  /** The first non-empty string of a list, or "". */
  function FirstNonEmpty(ss: seq<string>): (r: string)
    ensures forall i :: 0 <= i < |ss| && ss[i] != "" && (forall j :: 0 <= j < i ==> ss[j] == "") ==> r == ss[i]
    ensures r == "" <==> forall i :: 0 <= i < |ss| ==> ss[i] == ""
  {
    var k := FirstIndex(ss, s => s != "");
    if k < |ss| then ss[k] else ""
  }

  /** The `child_text` of each tag, in order. */
  function ChildTexts(e: Element, lookup: Lookup, tags: seq<string>): (r: seq<string>)
    ensures |r| == |tags|
    ensures forall i :: 0 <= i < |tags| ==> r[i] == ChildText(e, lookup, tags[i])
  {
    seq(|tags|, i requires 0 <= i < |tags| => ChildText(e, lookup, tags[i]))
  }

  /**
    The loop of `extract_old_price`: the `child_text` of the first tag, in list order, whose
    first child has non-empty text; "" when there is none.
   */
  function FirstChildText(e: Element, lookup: Lookup, tags: seq<string>): (r: string)
    ensures forall i :: 0 <= i < |tags| && ChildText(e, lookup, tags[i]) != ""
                        && (forall j :: 0 <= j < i ==> ChildText(e, lookup, tags[j]) == "")
                        ==> r == ChildText(e, lookup, tags[i])
    ensures r == "" <==> forall i :: 0 <= i < |tags| ==> ChildText(e, lookup, tags[i]) == ""
  {
    FirstNonEmptyOfTexts(e, lookup, tags);
    FirstNonEmpty(ChildTexts(e, lookup, tags))
  }

  lemma FirstNonEmptyOfTexts(e: Element, lookup: Lookup, tags: seq<string>)
    ensures forall i :: 0 <= i < |tags| && ChildText(e, lookup, tags[i]) != ""
                        && (forall j :: 0 <= j < i ==> ChildText(e, lookup, tags[j]) == "")
                        ==> FirstNonEmpty(ChildTexts(e, lookup, tags)) == ChildText(e, lookup, tags[i])
    ensures FirstNonEmpty(ChildTexts(e, lookup, tags)) == "" <==> forall i :: 0 <= i < |tags| ==> ChildText(e, lookup, tags[i]) == ""
  {
    var ss := ChildTexts(e, lookup, tags);
    forall i | 0 <= i < |tags| && ChildText(e, lookup, tags[i]) != "" && (forall j :: 0 <= j < i ==> ChildText(e, lookup, tags[j]) == "")
      ensures FirstNonEmpty(ss) == ChildText(e, lookup, tags[i])
    {
      assert forall j :: 0 <= j < i ==> ss[j] == "";
    }
  }

  /** `extract_old_price`. */
  function ExtractOldPrice(e: Element, lookup: Lookup): string {
    FirstChildText(e, lookup, OLD_PRICE_TAGS)
  }

  /** One entry of the pricing index. */
  datatype Record = Record(price: string, oldPrice: string, available: string)

  function RecordOf(e: Element, lookup: Lookup): Record {
    Record(ChildText(e, lookup, "price"), ExtractOldPrice(e, lookup), ExtractAvailable(e))
  }

  /** Offer `i` is the first offer of the feed with its (non-empty) identity key. */
  predicate FirstOfKey(keys: seq<string>, i: nat)
    requires i < |keys|
  {
    keys[i] != "" && forall j :: 0 <= j < i ==> keys[j] != keys[i]
  }

  /** The identity keys of a list of offers, in order. */
  function KeysOf(offers: seq<Element>, lookup: Lookup): (r: seq<string>)
    ensures |r| == |offers|
    ensures forall i :: 0 <= i < |offers| ==> r[i] == ResolveOfferIdKey(offers[i], lookup)
  {
    seq(|offers|, i requires 0 <= i < |offers| => ResolveOfferIdKey(offers[i], lookup))
  }

  /** The index entries of a list of offers, in order. */
  function RecordsOf(offers: seq<Element>, lookup: Lookup): (r: seq<Record>)
    ensures |r| == |offers|
    ensures forall i :: 0 <= i < |offers| ==> r[i] == RecordOf(offers[i], lookup)
  {
    seq(|offers|, i requires 0 <= i < |offers| => RecordOf(offers[i], lookup))
  }

  /**
    `build_rozetka_index`: maps the identity key of every offer of the secondary feed to
    its price, old price and availability. Empty keys are never inserted, and for a key
    shared by several offers the first one in document order is kept.
   */
  method BuildIndex(offers: seq<Element>, lookup: Lookup) returns (index: map<string, Record>)
    ensures forall k :: k in index ==> k != "" && k in KeysOf(offers, lookup)
    ensures forall i :: 0 <= i < |offers| && FirstOfKey(KeysOf(offers, lookup), i) ==>
              KeysOf(offers, lookup)[i] in index && index[KeysOf(offers, lookup)[i]] == RecordsOf(offers, lookup)[i]
  {
    index := FirstKeyWins(KeysOf(offers, lookup), RecordsOf(offers, lookup));
  }

  /** The loop of `build_rozetka_index`: inserts each entry under its key unless the key is empty or taken. */
  method FirstKeyWins<V>(keys: seq<string>, entries: seq<V>) returns (index: map<string, V>)
    requires |keys| == |entries|
    ensures forall k :: k in index ==> k != "" && k in keys
    ensures forall i :: 0 <= i < |keys| && FirstOfKey(keys, i) ==> keys[i] in index && index[keys[i]] == entries[i]
  {
    index := map[];
    for i := 0 to |keys|
      invariant forall k :: k in index ==> k != "" && k in keys[..i]
      invariant forall j :: 0 <= j < i && FirstOfKey(keys, j) ==> keys[j] in index && index[keys[j]] == entries[j]
    {
      var key := keys[i];
      assert keys[..i + 1] == keys[..i] + [key];
      if key != "" && key !in index {
        index := index[key := entries[i]];
      }
    }
    assert keys[..|keys|] == keys;
  }

  // ---------------------------------------------------------------------------
  // Editing children by name

  /** Some child has that name. */
  predicate Has(cs: seq<Child>, lookup: Lookup, name: string) {
    FindFirst(cs, lookup, name) < |cs|
  }

  /** The first child with that name (what `find` returns), if any. */
  function FirstNamed(cs: seq<Child>, lookup: Lookup, name: string): Option<Child> {
    var k := FindFirst(cs, lookup, name);
    if k < |cs| then Some(cs[k]) else None
  }

  function WithText(c: Child, text: string): Child {
    c.(text := Some(text))
  }

  /** `strip_html(text or "")`. */
  function StripText(text: Option<string>): string {
    StripHtml(text.GetOr(""))
  }

  /** `SubElement(offer, tag)` with its text set: a new last child without attributes. */
  function Appended(cs: seq<Child>, tag: string, text: string): seq<Child> {
    cs + [Child(tag, map[], Some(text))]
  }

  /** The first child with that name gets the text `f` computes from its old text; nothing else changes. */
  function RewriteFirst(cs: seq<Child>, lookup: Lookup, name: string, f: Option<string> -> string): seq<Child> {
    var k := FindFirst(cs, lookup, name);
    if k < |cs| then cs[k := WithText(cs[k], f(cs[k].text))] else cs
  }

  /** `offer.remove(node)` for the first child with that name, when there is one. */
  function RemoveFirst(cs: seq<Child>, lookup: Lookup, name: string): seq<Child> {
    var k := FindFirst(cs, lookup, name);
    if k < |cs| then RemoveAt(cs, k) else cs
  }

  /** A found child with its text replaced by `f` of its old text. */
  function Retexted(c: Option<Child>, f: Option<string> -> string): Option<Child> {
    if c.Some? then Some(WithText(c.value, f(c.value.text))) else None
  }

  /** Rewriting the text of the first `name` child changes what is found under `name` and nothing else. */
  lemma FirstNamedRewrite(cs: seq<Child>, lookup: Lookup, name: string, f: Option<string> -> string, m: string)
    ensures FirstNamed(RewriteFirst(cs, lookup, name, f), lookup, m)
            == if m == name then Retexted(FirstNamed(cs, lookup, name), f) else FirstNamed(cs, lookup, m)
  {
    var k := FindFirst(cs, lookup, name);
    if k < |cs| {
      var x := WithText(cs[k], f(cs[k].text));
      assert TagName(lookup, x) == TagName(lookup, cs[k]);
      FirstIndexUpdate(cs, k, x, NamedAs(lookup, m));
    }
  }

  /** A child without a given name is not found under it. */
  lemma NotHasFilter(cs: seq<Child>, lookup: Lookup, name: string)
    requires !Has(cs, lookup, name)
    ensures Filter(cs, NamedAs(lookup, name)) == []
  {
    FilterEmpty(cs, NamedAs(lookup, name));
  }

  /** Removing the first `name` child changes nothing that is found under another name. */
  lemma FirstNamedRemove(cs: seq<Child>, lookup: Lookup, name: string, m: string)
    requires m != name
    ensures FirstNamed(RemoveFirst(cs, lookup, name), lookup, m) == FirstNamed(cs, lookup, m)
  {
    var k := FindFirst(cs, lookup, name);
    if k < |cs| {
      var p := NamedAs(lookup, m);
      assert !p(cs[k]) by {
        assert Named(lookup, cs[k], name);
      }
      FirstMatchRemove(cs, k, p);
    }
  }

  /** An appended child is found under its (plain) tag only when no earlier child has it. */
  lemma FirstNamedAppend(cs: seq<Child>, lookup: Lookup, tag: string, text: string, m: string)
    requires PlainTag(tag)
    ensures FirstNamed(Appended(cs, tag, text), lookup, m)
            == if Has(cs, lookup, m) then FirstNamed(cs, lookup, m)
               else if tag == m then Some(Child(tag, map[], Some(text))) else None
  {
    var c := Child(tag, map[], Some(text));
    PlainTagNamed(lookup, c);
    FirstIndexSnoc(cs, c, NamedAs(lookup, m));
    assert (cs + [c])[|cs|] == c;
    assert forall j :: 0 <= j < |cs| ==> (cs + [c])[j] == cs[j];
  }

  /** The children named `m` are not touched by rewriting the first child of another name. */
  lemma FilterNamedRewriteOther(cs: seq<Child>, lookup: Lookup, name: string, f: Option<string> -> string, m: string)
    requires m != name
    ensures Filter(RewriteFirst(cs, lookup, name, f), NamedAs(lookup, m)) == Filter(cs, NamedAs(lookup, m))
  {
    var k := FindFirst(cs, lookup, name);
    if k < |cs| {
      FilterOther(cs, k, WithText(cs[k], f(cs[k].text)), NamedAs(lookup, m));
    }
  }

  /** The children named `m` are not touched by appending a child with another plain tag. */
  lemma FilterNamedAppendOther(cs: seq<Child>, lookup: Lookup, tag: string, text: string, m: string)
    requires m != tag && PlainTag(tag)
    ensures Filter(Appended(cs, tag, text), NamedAs(lookup, m)) == Filter(cs, NamedAs(lookup, m))
  {
    var c := Child(tag, map[], Some(text));
    PlainTagNamed(lookup, c);
    FilterSnoc(cs, c, NamedAs(lookup, m));
  }

  /**
    Removing the first `name` child takes exactly that child off the front of the `name`
    children, and leaves the children named `m` alone.
   */
  lemma FilterNamedRemove(cs: seq<Child>, lookup: Lookup, name: string, m: string)
    ensures Has(cs, lookup, name) ==>
              Filter(cs, NamedAs(lookup, name)) == [FirstNamed(cs, lookup, name).value] + Filter(RemoveFirst(cs, lookup, name), NamedAs(lookup, name))
    ensures m != name ==> Filter(RemoveFirst(cs, lookup, name), NamedAs(lookup, m)) == Filter(cs, NamedAs(lookup, m))
  {
    var k := FindFirst(cs, lookup, name);
    if k < |cs| {
      FilterRemoveFirst(cs, NamedAs(lookup, name));
      if m != name {
        FilterOther(cs, k, cs[k], NamedAs(lookup, m));
      }
    }
  }

  // ---------------------------------------------------------------------------
  // Children selected by kind

  /** The kinds of child that the rewrite steps select. */
  datatype Kind = Picture(lookup: Lookup) | FilledPicture(lookup: Lookup) | OldPrice(lookup: Lookup) | Param(lookup: Lookup)

  predicate Is(kind: Kind, c: Child) {
    match kind
    case Picture(l) => Named(l, c, "picture")
    case FilledPicture(l) => Named(l, c, "picture") && TextOf(c) != ""
    case OldPrice(l) => TagName(l, c) in OLD_PRICE_TAGS
    case Param(l) => Named(l, c, "param")
  }

  function Of(kind: Kind): Child -> bool {
    c => Is(kind, c)
  }

  // ---------------------------------------------------------------------------
  // Availability

  /** The availability a value is coerced to: "true" or "false", anything else becoming "false". */
  function CoerceAvailable(value: string): (r: string)
    ensures r == "true" || r == "false"
    ensures r == "true" <==> Trim(value) == "true"
  {
    var v := Trim(value);
    if v == "true" || v == "false" then v else "false"
  }

  lemma CoercedIsTrimmed(value: string)
    ensures AttrText(map["available" := CoerceAvailable(value)], "available") == CoerceAvailable(value)
  {
    TrimTrimmed(CoerceAvailable(value));
  }

  /**
    The offer after `set_available(offer, value)`, and whether the call reported a change.
    Afterwards the trimmed `available` attribute is the coerced value; the attribute is
    rewritten, and a change reported, only when its trimmed value differed.
   */
  function WithAvailable(e: Element, value: string): (r: (Element, bool))
    ensures r.0.children == e.children
    ensures AttrText(r.0.attrs, "available") == CoerceAvailable(value)
    ensures r.1 <==> AttrText(e.attrs, "available") != CoerceAvailable(value)
    ensures !r.1 ==> r.0 == e
    ensures r.1 ==> r.0.attrs == e.attrs["available" := CoerceAvailable(value)]
  {
    var v := CoerceAvailable(value);
    CoercedIsTrimmed(value);
    if AttrText(e.attrs, "available") == v then (e, false)
    else
      var attrs := e.attrs["available" := v];
      assert AttrOf(attrs, "available") == AttrOf(map["available" := v], "available");
      (e.(attrs := attrs), true)
  }

  /** A second `set_available` with the same value, or with the offer's own value, changes nothing. */
  lemma SetAvailableSettles(e: Element, value: string)
    ensures !WithAvailable(WithAvailable(e, value).0, value).1
    ensures !WithAvailable(WithAvailable(e, value).0, ExtractAvailable(WithAvailable(e, value).0)).1
  {
    var e1 := WithAvailable(e, value).0;
    var v := CoerceAvailable(value);
    TrimTrimmed(v);
    assert CoerceAvailable(ExtractAvailable(e1)) == v;
  }

  /** `set_available`. */
  method SetAvailable(offer: Offer, value: string) returns (changed: bool)
    modifies offer
    ensures (offer.Value(), changed) == WithAvailable(old(offer.Value()), value)
  {
    var v := Trim(value);
    if v != "true" && v != "false" {
      v := "false";
    }
    if AttrText(offer.attrs, "available") == v {
      return false;
    }
    offer.attrs := offer.attrs["available" := v];
    changed := true;
  }

  // ---------------------------------------------------------------------------
  // set_or_create

  /**
    The offer after writing `value` into the first `tag` child, creating it at the end when
    there is none, and whether a change was reported. An empty value changes nothing, and an
    existing child whose trimmed text already equals the value is left alone.
   */
  function WithChildSet(e: Element, lookup: Lookup, tag: string, value: string): (r: (Element, bool))
    ensures value == "" ==> r == (e, false)
    ensures r.1 <==> value != "" && (FindFirst(e.children, lookup, tag) == |e.children| || ChildText(e, lookup, tag) != value)
    ensures !r.1 ==> r.0 == e
    ensures r.0.attrs == e.attrs
    ensures |r.0.children| == |e.children| + (if r.1 && FindFirst(e.children, lookup, tag) == |e.children| then 1 else 0)
    ensures forall k :: 0 <= k < |e.children| && k != FindFirst(e.children, lookup, tag) ==> r.0.children[k] == e.children[k]
    ensures r.1 && FindFirst(e.children, lookup, tag) < |e.children| ==>
              var k := FindFirst(e.children, lookup, tag); r.0.children[k] == e.children[k].(text := Some(value))
    ensures r.1 && FindFirst(e.children, lookup, tag) == |e.children| ==>
              r.0.children == e.children + [Child(tag, map[], Some(value))]
  {
    var k := FindFirst(e.children, lookup, tag);
    if value == "" then (e, false)
    else if k == |e.children| then (e.(children := e.children + [Child(tag, map[], Some(value))]), true)
    else if TextOf(e.children[k]) != value then
      (e.(children := e.children[k := e.children[k].(text := Some(value))]), true)
    else
      (e, false)
  }

  /** After `WithChildSet` with a non-empty value, reading the tag back gives the trimmed value. */
  lemma ChildSetReadsBack(e: Element, lookup: Lookup, tag: string, value: string)
    requires value != "" && PlainTag(tag)
    ensures ChildText(WithChildSet(e, lookup, tag, value).0, lookup, tag) == Trim(value)
  {
    var k := FindFirst(e.children, lookup, tag);
    var r := WithChildSet(e, lookup, tag, value).0;
    if k == |e.children| {
      var c := Child(tag, map[], Some(value));
      PlainTagNamed(lookup, c);
      FirstIndexSnoc(e.children, c, NamedAs(lookup, tag));
      assert r.children == e.children + [c];
    } else if TextOf(e.children[k]) == value {
      TrimTrimmed(value);
    } else {
      assert FindFirst(r.children, lookup, tag) == k by {
        assert forall j :: 0 <= j < |e.children| && j != k ==> r.children[j] == e.children[j];
        assert Named(lookup, r.children[k], tag);
      }
    }
  }

  /** Setting one (plain) tag changes nothing that is found under any other name. */
  lemma ChildSetOthers(e: Element, lookup: Lookup, tag: string, value: string, m: string)
    requires m != tag && PlainTag(tag)
    ensures FirstNamed(WithChildSet(e, lookup, tag, value).0.children, lookup, m) == FirstNamed(e.children, lookup, m)
    ensures ChildText(WithChildSet(e, lookup, tag, value).0, lookup, m) == ChildText(e, lookup, m)
  {
    var cs := e.children;
    var k := FindFirst(cs, lookup, tag);
    var r := WithChildSet(e, lookup, tag, value).0;
    if value != "" && k == |cs| {
      assert r.children == Appended(cs, tag, value);
      FirstNamedAppend(cs, lookup, tag, value, m);
    } else if value != "" && TextOf(cs[k]) != value {
      var f: Option<string> -> string := t => value;
      assert r.children == RewriteFirst(cs, lookup, tag, f);
      FirstNamedRewrite(cs, lookup, tag, f, m);
    }
  }

  /**
    Two `set_or_create_child` calls on different plain tags, one after the other, and any
    element with the children they leave: each tag reads back its trimmed value when it was
    given one, and the first keeps its old text when it was not.
   */
  lemma ChildSetTwice(e: Element, lookup: Lookup, first: string, v1: string, second: string, v2: string, r: Element)
    requires first != second && PlainTag(first) && PlainTag(second)
    requires r.children == WithChildSet(WithChildSet(e, lookup, first, v1).0, lookup, second, v2).0.children
    ensures v1 != "" ==> ChildText(r, lookup, first) == Trim(v1)
    ensures v1 == "" ==> ChildText(r, lookup, first) == ChildText(e, lookup, first)
    ensures v2 != "" ==> ChildText(r, lookup, second) == Trim(v2)
  {
    var e1 := WithChildSet(e, lookup, first, v1).0;
    var e2 := WithChildSet(e1, lookup, second, v2).0;
    assert ChildText(r, lookup, first) == ChildText(e2, lookup, first);
    assert ChildText(r, lookup, second) == ChildText(e2, lookup, second);
    ChildSetOthers(e1, lookup, second, v2, first);
    if v1 != "" {
      ChildSetReadsBack(e, lookup, first, v1);
    }
    if v2 != "" {
      ChildSetReadsBack(e1, lookup, second, v2);
    }
  }

  /** `set_or_create_child`. */
  method SetOrCreateChild(offer: Offer, lookup: Lookup, tag: string, value: string) returns (changed: bool)
    modifies offer
    ensures (offer.Value(), changed) == WithChildSet(old(offer.Value()), lookup, tag, value)
  {
    if value == "" {
      return false;
    }
    var k := FindFirst(offer.children, lookup, tag);
    if k == |offer.children| {
      offer.children := offer.children + [Child(tag, map[], Some(value))];
      return true;
    }
    if TextOf(offer.children[k]) != value {
      offer.children := offer.children[k := offer.children[k].(text := Some(value))];
      return true;
    }
    changed := false;
  }

  // ---------------------------------------------------------------------------
  // Picture cap

  /** The loop that removes every child of `kind` after the first MAX_PICTURES of them. */
  method CapPictures(offer: Offer, kind: Kind)
    modifies offer
    ensures offer.Value() == old(offer.Value()).(children := KeepFirst(old(offer.children), Of(kind), MAX_PICTURES))
  {
    var kept := KeepFirstLoop(offer.children, Of(kind), MAX_PICTURES);
    offer.children := kept;
  }

  /** The last two rewrites of `normalize_offer`: availability coerced, then pictures of `kind` capped. */
  function Finished(e: Element, kind: Kind): Element {
    WithAvailable(e, ExtractAvailable(e)).0.(children := KeepFirst(e.children, Of(kind), MAX_PICTURES))
  }

  /** A finished offer has `available` "true" or "false" and keeps a clean `id`. */
  lemma FinishedAttrs(e: Element, kind: Kind)
    ensures AttrText(Finished(e, kind).attrs, "available") in {"true", "false"}
    ensures CleanIdAttr(e.attrs) ==> CleanIdAttr(Finished(e, kind).attrs)
  {
    var v := CoerceAvailable(ExtractAvailable(e));
    var attrs := Finished(e, kind).attrs;
    assert attrs == e.attrs || attrs == e.attrs["available" := v];
  }


  // ---------------------------------------------------------------------------
  // Old price consolidation

  /** A child named `tag` with non-empty trimmed text. */
  predicate Filled(lookup: Lookup, c: Child, tag: string) {
    Named(lookup, c, tag) && TextOf(c) != ""
  }

  function FilledAs(lookup: Lookup, tag: string): Child -> bool {
    c => Filled(lookup, c, tag)
  }

  /** The first non-empty text among the children named `tag` (one `values_by_tag` entry). */
  function FirstFilled(cs: seq<Child>, lookup: Lookup, tag: string): string {
    var k := FirstIndex(cs, FilledAs(lookup, tag));
    if k < |cs| then TextOf(cs[k]) else ""
  }

  /** The value kept for a tag is the text of its first non-empty child; "" exactly when it has none. */
  lemma FirstFilledIsFirst(cs: seq<Child>, lookup: Lookup, tag: string)
    ensures forall k :: 0 <= k < |cs| && Filled(lookup, cs[k], tag) && (forall j :: 0 <= j < k ==> !Filled(lookup, cs[j], tag))
                        ==> FirstFilled(cs, lookup, tag) == TextOf(cs[k])
    ensures FirstFilled(cs, lookup, tag) == "" <==> forall k :: 0 <= k < |cs| ==> !Filled(lookup, cs[k], tag)
  {
    var p := FilledAs(lookup, tag);
    assert forall c :: p(c) == Filled(lookup, c, tag);
    forall k | 0 <= k < |cs| && Filled(lookup, cs[k], tag) && (forall j :: 0 <= j < k ==> !Filled(lookup, cs[j], tag))
      ensures FirstFilled(cs, lookup, tag) == TextOf(cs[k])
    {
      FirstIndexUnique(cs, p, k);
    }
  }

  lemma FirstFilledSnoc(cs: seq<Child>, c: Child, lookup: Lookup, tag: string)
    ensures FirstFilled(cs + [c], lookup, tag)
            == if FirstFilled(cs, lookup, tag) != "" then FirstFilled(cs, lookup, tag)
               else if Filled(lookup, c, tag) then TextOf(c) else ""
  {
    FirstIndexSnoc(cs, c, FilledAs(lookup, tag));
    assert (cs + [c])[|cs|] == c;
    assert forall k :: 0 <= k < |cs| ==> (cs + [c])[k] == cs[k];
  }

  /** The `values_by_tag` entry of each tag, in order ("" for a tag with no value). */
  function FirstFilledValues(cs: seq<Child>, lookup: Lookup, tags: seq<string>): (r: seq<string>)
    ensures |r| == |tags|
    ensures forall i :: 0 <= i < |tags| ==> r[i] == FirstFilled(cs, lookup, tags[i])
  {
    seq(|tags|, i requires 0 <= i < |tags| => FirstFilled(cs, lookup, tags[i]))
  }

  /**
    The value picked by priority: the first non-empty value of the first tag, in list order,
    that has one; "" when no tag has a non-empty value.
   */
  function PriorityValue(cs: seq<Child>, lookup: Lookup, tags: seq<string>): (r: string)
    ensures forall i :: 0 <= i < |tags| && FirstFilled(cs, lookup, tags[i]) != ""
                        && (forall j :: 0 <= j < i ==> FirstFilled(cs, lookup, tags[j]) == "")
                        ==> r == FirstFilled(cs, lookup, tags[i])
    ensures r == "" <==> forall i :: 0 <= i < |tags| ==> FirstFilled(cs, lookup, tags[i]) == ""
  {
    FirstNonEmpty(FirstFilledValues(cs, lookup, tags))
  }

  /** The consolidated old price, by OLD_PRICE_TAGS priority. */
  function OldPriceValue(cs: seq<Child>, lookup: Lookup): string {
    PriorityValue(cs, lookup, OLD_PRICE_TAGS)
  }

  function OldPriceChild(value: string): Child {
    Child("old_price", map[], Some(value))
  }

  lemma OldPriceChildIsOldPrice(lookup: Lookup, value: string)
    ensures Is(OldPrice(lookup), OldPriceChild(value))
  {
    assert PlainTag("old_price");
    PlainTagNamed(lookup, OldPriceChild(value));
  }

  /**
    The offer after `normalize_old_price_tag`: every legacy old-price child removed, the
    other children kept in order, and exactly one `old_price` child, at the end, when some
    legacy tag carried a value.
   */
  function WithOldPriceConsolidated(e: Element, lookup: Lookup): (r: Element)
    ensures r.attrs == e.attrs
    ensures Reject(r.children, Of(OldPrice(lookup))) == Reject(e.children, Of(OldPrice(lookup)))
    ensures Filter(r.children, Of(OldPrice(lookup)))
            == if OldPriceValue(e.children, lookup) == "" then [] else [OldPriceChild(OldPriceValue(e.children, lookup))]
    ensures OldPriceValue(e.children, lookup) != "" ==>
              |r.children| > 0 && r.children[|r.children| - 1] == OldPriceChild(OldPriceValue(e.children, lookup))
  {
    var v := OldPriceValue(e.children, lookup);
    var p := Of(OldPrice(lookup));
    var kept := Reject(e.children, p);
    var extra := if v == "" then [] else [OldPriceChild(v)];
    OldPriceChildIsOldPrice(lookup, v);
    FilterAppend(kept, extra, p);
    RejectFilter(e.children, p);
    assert v != "" ==> [OldPriceChild(v)][..0] == [];
    e.(children := kept + extra)
  }

  /**
    The `values_by_tag` map that the collecting loop of `normalize_old_price_tag` builds: for
    each of `tags`, the text of its first child with non-empty text.
   */
  function ValuesByTag(cs: seq<Child>, lookup: Lookup, tags: seq<string>): map<string, string> {
    if cs == [] then map[]
    else
      var m := ValuesByTag(cs[..|cs| - 1], lookup, tags);
      var c := cs[|cs| - 1];
      var tag := TagName(lookup, c);
      if tag in tags && TextOf(c) != "" && tag !in m then m[tag := TextOf(c)] else m
  }

  /** Every tag in `values_by_tag` is mapped to the text of its first child with non-empty text. */
  lemma {:induction false} ValuesByTagSound(cs: seq<Child>, lookup: Lookup, tags: seq<string>)
    ensures forall t :: t in ValuesByTag(cs, lookup, tags) ==>
              t in tags && ValuesByTag(cs, lookup, tags)[t] == FirstFilled(cs, lookup, t) != ""
    decreases |cs|
  {
    if cs != [] {
      var init := cs[..|cs| - 1];
      var c := cs[|cs| - 1];
      ValuesByTagSound(init, lookup, tags);
      ValuesByTagComplete(init, lookup, tags);
      assert cs == init + [c];
      forall t {
        FirstFilledSnoc(init, c, lookup, t);
      }
    }
  }

  /** Every tag with a child with non-empty text is in `values_by_tag`. */
  lemma {:induction false} ValuesByTagComplete(cs: seq<Child>, lookup: Lookup, tags: seq<string>)
    ensures forall t :: t in tags && FirstFilled(cs, lookup, t) != "" ==> t in ValuesByTag(cs, lookup, tags)
    decreases |cs|
  {
    if cs != [] {
      var init := cs[..|cs| - 1];
      var c := cs[|cs| - 1];
      ValuesByTagComplete(init, lookup, tags);
      assert cs == init + [c];
      forall t {
        FirstFilledSnoc(init, c, lookup, t);
      }
    }
  }

  /** The value stored for each tag, "" for a tag without one. */
  function TagValues(m: map<string, string>, tags: seq<string>): (r: seq<string>)
    ensures |r| == |tags|
    ensures forall i :: 0 <= i < |tags| ==> r[i] == if tags[i] in m then m[tags[i]] else ""
  {
    seq(|tags|, i requires 0 <= i < |tags| => if tags[i] in m then m[tags[i]] else "")
  }

  /** Read in tag order, `values_by_tag` gives each tag's first non-empty value. */
  lemma TagValuesFirstFilled(cs: seq<Child>, lookup: Lookup, tags: seq<string>)
    ensures TagValues(ValuesByTag(cs, lookup, tags), tags) == FirstFilledValues(cs, lookup, tags)
  {
    ValuesByTagSound(cs, lookup, tags);
    ValuesByTagComplete(cs, lookup, tags);
  }

  /** One more child: the step of both results of the first loop of `normalize_old_price_tag`. */
  lemma CollectStep(cs: seq<Child>, lookup: Lookup, tags: seq<string>, p: Child -> bool, i: nat)
    requires i < |cs|
    ensures Reject(cs[..i + 1], p) == Reject(cs[..i], p) + (if p(cs[i]) then [] else [cs[i]])
    ensures ValuesByTag(cs[..i + 1], lookup, tags) ==
              if TagName(lookup, cs[i]) in tags && TextOf(cs[i]) != "" && TagName(lookup, cs[i]) !in ValuesByTag(cs[..i], lookup, tags)
              then ValuesByTag(cs[..i], lookup, tags)[TagName(lookup, cs[i]) := TextOf(cs[i])]
              else ValuesByTag(cs[..i], lookup, tags)
  {
    assert cs[..i + 1][..i] == cs[..i];
    FilterSnoc(cs[..i], cs[i], p);
    assert cs[..i + 1] == cs[..i] + [cs[i]];
  }

  /**
    The first loop of `normalize_old_price_tag`: the first non-empty value of every legacy
    tag present, and the children that are not legacy old-price tags.
   */
  method CollectOldPrices(cs: seq<Child>, lookup: Lookup) returns (valuesByTag: map<string, string>, kept: seq<Child>)
    ensures kept == Reject(cs, Of(OldPrice(lookup)))
    ensures valuesByTag == ValuesByTag(cs, lookup, OLD_PRICE_TAGS)
  {
    var p := Of(OldPrice(lookup));
    valuesByTag := map[];
    kept := [];
    for i := 0 to |cs|
      invariant kept == Reject(cs[..i], p)
      invariant valuesByTag == ValuesByTag(cs[..i], lookup, OLD_PRICE_TAGS)
    {
      CollectStep(cs, lookup, OLD_PRICE_TAGS, p, i);
      var tag := TagName(lookup, cs[i]);
      if tag in OLD_PRICE_TAGS {
        var current := TextOf(cs[i]);
        if current != "" && tag !in valuesByTag {
          valuesByTag := valuesByTag[tag := current];
        }
      } else {
        kept := kept + [cs[i]];
      }
    }
    assert cs[..|cs|] == cs;
  }

  /** The second loop of `normalize_old_price_tag`: the stored value of the first tag, in order, that has one. */
  method PickByPriority(valuesByTag: map<string, string>, tags: seq<string>) returns (value: string)
    ensures value == FirstNonEmpty(TagValues(valuesByTag, tags))
  {
    ghost var values := TagValues(valuesByTag, tags);
    value := "";
    var j := 0;
    while j < |tags| && value == ""
      invariant 0 <= j <= |tags|
      invariant value == "" ==> forall i :: 0 <= i < j ==> values[i] == ""
      invariant value != "" ==> 0 < j && value == values[j - 1] && forall i :: 0 <= i < j - 1 ==> values[i] == ""
    {
      var tag := tags[j];
      var candidate := if tag in valuesByTag then valuesByTag[tag] else "";
      if candidate != "" {
        value := candidate;
      }
      j := j + 1;
    }
  }

  /**
    `normalize_old_price_tag` (and the update job's `normalize_old_price`): collects the first
    non-empty value per legacy tag while dropping the legacy children, then appends one
    `old_price` carrying the value of the highest-priority tag found.
   */
  method NormalizeOldPriceTag(offer: Offer, lookup: Lookup)
    modifies offer
    ensures offer.Value() == WithOldPriceConsolidated(old(offer.Value()), lookup)
  {
    var cs := offer.children;
    var valuesByTag, kept := CollectOldPrices(cs, lookup);
    offer.children := kept;
    var value := PickByPriority(valuesByTag, OLD_PRICE_TAGS);
    TagValuesFirstFilled(cs, lookup, OLD_PRICE_TAGS);
    if value != "" {
      offer.children := offer.children + [OldPriceChild(value)];
    }
  }

  // ---------------------------------------------------------------------------
  // Parameters

  /** `strip_html(child.attrib.get("name") or "")`. */
  function ParamName(c: Child): string {
    StripHtml(AttrOf(c.attrs, "name").GetOr(""))
  }

  /** A param with a non-empty cleaned name and a non-empty value. */
  predicate ParamUsable(c: Child) {
    ParamName(c) != "" && TextOf(c) != ""
  }

  /** The param with its `name` attribute rewritten to the cleaned name. */
  function Renamed(c: Child): Child {
    c.(attrs := c.attrs["name" := ParamName(c)])
  }

  // ---------------------------------------------------------------------------
  // Identifier

  /**
    The offer after `normalize_offer_id`: when the raw identity has at least one character in
    `[A-Za-z0-9]`, `id` becomes the identity with every other character deleted and the call
    succeeds; otherwise it fails and the offer is unchanged.
   */
  function WithOfferId(e: Element, lookup: Lookup): (r: (Element, bool))
    ensures r.1 <==> exists i :: 0 <= i < |ResolveOfferIdRaw(e, lookup)| && IsIdChar(ResolveOfferIdRaw(e, lookup)[i])
    ensures !r.1 ==> r.0 == e
    ensures r.1 ==> r.0.attrs == e.attrs["id" := CleanId(ResolveOfferIdRaw(e, lookup))]
    ensures r.1 ==> r.0.attrs["id"] != "" && forall i :: 0 <= i < |r.0.attrs["id"]| ==> IsIdChar(r.0.attrs["id"][i])
    ensures r.0.children == e.children
  {
    var cleaned := CleanId(ResolveOfferIdRaw(e, lookup));
    if cleaned == "" then (e, false)
    else (e.(attrs := e.attrs["id" := cleaned]), true)
  }

  /** An `id` attribute that is a non-empty string over `[A-Za-z0-9]`. */
  predicate CleanIdAttr(attrs: map<string, string>) {
    "id" in attrs && attrs["id"] != "" && forall i :: 0 <= i < |attrs["id"]| ==> IsIdChar(attrs["id"][i])
  }

  /** `normalize_offer_id`. */
  method NormalizeOfferId(offer: Offer, lookup: Lookup) returns (ok: bool)
    modifies offer
    ensures (offer.Value(), ok) == WithOfferId(old(offer.Value()), lookup)
  {
    var raw := ResolveOfferIdRaw(offer.Value(), lookup);
    var cleaned := CleanId(raw);
    if cleaned == "" {
      return false;
    }
    offer.attrs := offer.attrs["id" := cleaned];
    ok := true;
  }

  // ---------------------------------------------------------------------------
  // Required fields

  /** All six required texts are non-empty and at least one picture has non-empty text. */
  predicate RequiredFieldsPresent(e: Element, lookup: Lookup) {
    && (forall i :: 0 <= i < |REQUIRED_TAGS| ==> ChildText(e, lookup, REQUIRED_TAGS[i]) != "")
    && Filter(e.children, Of(FilledPicture(lookup))) != []
  }

  /** `has_required_fields`: checks the six required texts, then counts non-empty pictures. */
  method HasRequiredFields(offer: Offer, lookup: Lookup) returns (ok: bool)
    ensures ok == RequiredFieldsPresent(offer.Value(), lookup)
  {
    var e := offer.Value();
    var required := ChildTexts(e, lookup, REQUIRED_TAGS);
    if exists i :: 0 <= i < |required| && required[i] == "" {
      return false;
    }
    var pictureCount := CountLoop(e.children, Of(FilledPicture(lookup)));
    ok := pictureCount > 0;
  }
}
