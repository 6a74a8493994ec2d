/**
  The document around the offers, as both pipelines finish it: the root's `date`
  attribute (stamped with the current time only when blank) and the `categories` block
  of the shop (synthesised from the offers' `categoryId` values only when the shop has
  none). The current time is a parameter, already formatted.
 */
module Shop {
  import opened Wrappers
  import opened Text
  import opened Feed

  /** A `category` element: its `id` attribute and its text. */
  datatype Category = Category(id: string, text: string)

  /**
    A document: the root's attributes, whether it has a `shop`, the shop's categories
    block (if any) and the offers of its offers block, in document order.
   */
  class Document {
    var rootAttrs: map<string, string>
    var hasShop: bool
    var categories: Option<seq<Category>>
    var offers: seq<Element>

    constructor (rootAttrs: map<string, string>, hasShop: bool, categories: Option<seq<Category>>, offers: seq<Element>)
      ensures this.rootAttrs == rootAttrs && this.hasShop == hasShop
      ensures this.categories == categories && this.offers == offers
    {
      this.rootAttrs := rootAttrs;
      this.hasShop := hasShop;
      this.categories := categories;
      this.offers := offers;
    }
  }

  // ---------------------------------------------------------------------------
  // The date stamp

  predicate IsDigit(c: char) {
    '0' <= c <= '9'
  }

  /** A time formatted as `%Y-%m-%d %H:%M`. */
  predicate IsStamp(s: string) {
    && |s| == 16
    && s[4] == '-' && s[7] == '-' && s[10] == ' ' && s[13] == ':'
    && forall i :: 0 <= i < 16 && i !in {4, 7, 10, 13} ==> IsDigit(s[i])
  }

  /** `ensure_root_date`: the root keeps a non-blank `date`; a blank or missing one is set to `now`. */
  function RootDated(attrs: map<string, string>, now: string): map<string, string> {
    if AttrText(attrs, "date") != "" then attrs else attrs["date" := now]
  }

  /**
    A non-blank date is left exactly as it is; a blank one becomes the stamp, so the root
    always ends with a non-blank date; the other attributes are untouched; and stamping
    again changes nothing.
   */
  lemma RootDatedFacts(attrs: map<string, string>, now: string, later: string)
    requires IsStamp(now)
    ensures AttrText(attrs, "date") != "" ==> RootDated(attrs, now) == attrs
    ensures AttrText(attrs, "date") == "" ==> RootDated(attrs, now)["date"] == now
    ensures AttrText(RootDated(attrs, now), "date") != ""
    ensures forall k :: k in attrs && k != "date" ==> k in RootDated(attrs, now) && RootDated(attrs, now)[k] == attrs[k]
    ensures RootDated(attrs, now).Keys == attrs.Keys + {"date"}
    ensures RootDated(RootDated(attrs, now), later) == RootDated(attrs, now)
  {
    if AttrText(attrs, "date") == "" {
      assert IsTrimmed(now) by {
        assert IsDigit(now[0]) && IsDigit(now[15]);
      }
      TrimTrimmed(now);
      assert AttrText(RootDated(attrs, now), "date") == now;
    }
  }

  /** `ensure_root_date` on the document. */
  method EnsureRootDate(doc: Document, now: string)
    modifies doc
    ensures doc.rootAttrs == RootDated(old(doc.rootAttrs), now)
    ensures doc.hasShop == old(doc.hasShop) && doc.categories == old(doc.categories) && doc.offers == old(doc.offers)
  {
    if AttrText(doc.rootAttrs, "date") == "" {
      doc.rootAttrs := doc.rootAttrs["date" := now];
    }
  }

  // ---------------------------------------------------------------------------
  // The categories block

  /** The `categoryId` text of every offer, in document order. */
  function CategoryIds(offers: seq<Element>, lookup: Lookup): (r: seq<string>)
    ensures |r| == |offers|
  {
    if offers == [] then []
    else CategoryIds(offers[..|offers| - 1], lookup) + [ChildText(offers[|offers| - 1], lookup, "categoryId")]
  }

  /** The id at each position is that offer's `categoryId`. */
  lemma {:induction false} CategoryIdsAt(offers: seq<Element>, lookup: Lookup, k: nat)
    requires k < |offers|
    ensures CategoryIds(offers, lookup)[k] == ChildText(offers[k], lookup, "categoryId")
    decreases |offers|
  {
    if k < |offers| - 1 {
      CategoryIdsAt(offers[..|offers| - 1], lookup, k);
    }
  }

  /** The non-empty ids in order of first appearance, each once. */
  function FirstSeen(ids: seq<string>): seq<string> {
    if ids == [] then []
    else
      var seen := FirstSeen(ids[..|ids| - 1]);
      var id := ids[|ids| - 1];
      if id == "" || id in seen then seen else seen + [id]
  }

  /** The position of the first occurrence of `id`, or the length when it does not occur. */
  function Position(ids: seq<string>, id: string): (r: nat)
    ensures r <= |ids|
    ensures r < |ids| ==> ids[r] == id
    ensures forall k :: 0 <= k < r ==> ids[k] != id
  {
    if ids == [] then 0 else if ids[0] == id then 0 else 1 + Position(ids[1..], id)
  }

  /** Appending leaves the first position of an id already present unchanged. */
  lemma PositionSnoc(ids: seq<string>, x: string, id: string)
    requires id in ids
    ensures Position(ids + [x], id) == Position(ids, id)
  {
    var r := Position(ids, id);
    assert (ids + [x])[r] == id;
    assert forall k :: 0 <= k < r ==> (ids + [x])[k] == ids[k];
  }

  /**
    The synthesised ids are exactly the non-empty ids of the offers, each once, in the
    order in which they first appear.
   */
  lemma {:induction false} FirstSeenFacts(ids: seq<string>)
    ensures forall id :: id in FirstSeen(ids) <==> id != "" && id in ids
    ensures forall i, j :: 0 <= i < j < |FirstSeen(ids)| ==> FirstSeen(ids)[i] != FirstSeen(ids)[j]
    ensures forall i, j :: 0 <= i < j < |FirstSeen(ids)| ==> Position(ids, FirstSeen(ids)[i]) < Position(ids, FirstSeen(ids)[j])
    decreases |ids|
  {
    if ids != [] {
      var init := ids[..|ids| - 1];
      var id := ids[|ids| - 1];
      var seen := FirstSeen(init);
      FirstSeenFacts(init);
      assert ids == init + [id];
      forall y | y in seen ensures Position(ids, y) == Position(init, y) {
        PositionSnoc(init, id, y);
      }
      if !(id == "" || id in seen) {
        assert id !in init;
        assert Position(ids, id) == |init|;
        var r := FirstSeen(ids);
        assert r == seen + [id];
        forall i, j | 0 <= i < j < |r| ensures Position(ids, r[i]) < Position(ids, r[j]) {
          assert r[i] == seen[i];
          if j < |seen| {
            assert r[j] == seen[j];
          } else {
            assert r[i] in init;
          }
        }
      }
    }
  }

  function AsCategory(id: string): Category {
    Category(id, id)
  }

  /**
    `ensure_categories`' synthesised block: one `category` per distinct non-empty
    `categoryId`, in order of first appearance, with the id as both attribute and text.
   */
  function Categories(offers: seq<Element>, lookup: Lookup): seq<Category> {
    Seqs.Map(FirstSeen(CategoryIds(offers, lookup)), AsCategory)
  }

  /**
    Every offer's non-empty category has a category in the block, every category in the
    block is some offer's, and no id is listed twice.
   */
  lemma CategoriesCover(offers: seq<Element>, lookup: Lookup)
    ensures forall k :: 0 <= k < |offers| && ChildText(offers[k], lookup, "categoryId") != "" ==>
              Category(ChildText(offers[k], lookup, "categoryId"), ChildText(offers[k], lookup, "categoryId")) in Categories(offers, lookup)
    ensures forall c :: c in Categories(offers, lookup) ==>
              c.id == c.text && c.id != "" && exists k :: 0 <= k < |offers| && ChildText(offers[k], lookup, "categoryId") == c.id
    ensures forall i, j :: 0 <= i < j < |Categories(offers, lookup)| ==> Categories(offers, lookup)[i].id != Categories(offers, lookup)[j].id
  {
    var ids := CategoryIds(offers, lookup);
    var seen := FirstSeen(ids);
    FirstSeenFacts(ids);
    var cats := Categories(offers, lookup);
    forall k | 0 <= k < |offers| && ChildText(offers[k], lookup, "categoryId") != ""
      ensures AsCategory(ChildText(offers[k], lookup, "categoryId")) in cats
    {
      CategoryIdsAt(offers, lookup, k);
      var id := ChildText(offers[k], lookup, "categoryId");
      assert id in seen;
      var i :| 0 <= i < |seen| && seen[i] == id;
      assert cats[i] == AsCategory(id);
    }
    forall c | c in cats
      ensures c.id == c.text && c.id != "" && exists k :: 0 <= k < |offers| && ChildText(offers[k], lookup, "categoryId") == c.id
    {
      var i :| 0 <= i < |cats| && cats[i] == c;
      assert c == AsCategory(seen[i]);
      assert seen[i] in ids;
      var k :| 0 <= k < |ids| && ids[k] == seen[i];
      CategoryIdsAt(offers, lookup, k);
    }
  }

  /** One more offer: its id is added unless it is empty or already listed. */
  lemma FirstSeenStep(offers: seq<Element>, lookup: Lookup, i: nat)
    requires i < |offers|
    ensures FirstSeen(CategoryIds(offers[..i + 1], lookup)) ==
              if ChildText(offers[i], lookup, "categoryId") == "" || ChildText(offers[i], lookup, "categoryId") in FirstSeen(CategoryIds(offers[..i], lookup))
              then FirstSeen(CategoryIds(offers[..i], lookup))
              else FirstSeen(CategoryIds(offers[..i], lookup)) + [ChildText(offers[i], lookup, "categoryId")]
  {
    assert offers[..i + 1][..i] == offers[..i];
    var ids := CategoryIds(offers[..i + 1], lookup);
    assert ids[..|ids| - 1] == CategoryIds(offers[..i], lookup);
  }

  /** The `categoryId` loop of `ensure_categories`, with the set of ids already listed. */
  method CollectCategories(offers: seq<Element>, lookup: Lookup) returns (categories: seq<Category>)
    ensures categories == Categories(offers, lookup)
  {
    categories := [];
    var known: set<string> := {};
    ghost var seen: seq<string> := [];
    for i := 0 to |offers|
      invariant seen == FirstSeen(CategoryIds(offers[..i], lookup))
      invariant categories == Seqs.Map(seen, AsCategory)
      invariant forall id :: id in known <==> id in seen
    {
      var id := ChildText(offers[i], lookup, "categoryId");
      FirstSeenStep(offers, lookup, i);
      if id == "" || id in known {
        continue;
      }
      Seqs.MapSnoc(seen, id, AsCategory);
      categories := categories + [AsCategory(id)];
      known := known + {id};
      seen := seen + [id];
    }
    assert offers[..|offers|] == offers;
  }

  /**
    `ensure_categories`: a document without a shop gets one (with no offers, hence an
    empty block); a shop that already has a categories block keeps it unchanged;
    otherwise the block is synthesised from the offers.
   */
  method EnsureCategories(doc: Document, lookup: Lookup)
    modifies doc
    ensures doc.hasShop
    ensures !old(doc.hasShop) ==> doc.categories == Some([])
    ensures old(doc.hasShop) && old(doc.categories).Some? ==> doc.categories == old(doc.categories)
    ensures old(doc.hasShop) && old(doc.categories).None? ==> doc.categories == Some(Categories(doc.offers, lookup))
    ensures doc.rootAttrs == old(doc.rootAttrs) && doc.offers == old(doc.offers)
  {
    if !doc.hasShop {
      doc.hasShop := true;
      doc.categories := Some([]);
      return;
    }
    if doc.categories.Some? {
      return;
    }
    var categories := CollectCategories(doc.offers, lookup);
    doc.categories := Some(categories);
  }
}
