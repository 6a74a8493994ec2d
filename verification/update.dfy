/**
  The rewrite steps of the scheduled update job (update_maudau.py) that differ from the
  generator's: the name and description rewrite, parameter cleanup without
  de-duplication, the picture cap that counts only pictures with text, the whole
  per-offer normalisation, and the repricing of an offer from the pricing index, where
  every value written is trimmed first. Children are matched by their tag as written.
 */
module UpdateJob {
  import opened Wrappers
  import opened Text
  import opened Seqs
  import opened Feed

  // ---------------------------------------------------------------------------
  // normalize_name_description

  /** A `name_ru` is appended with the trimmed text of the first `name` when there is a `name` and no `name_ru`. */
  function NameRuCreated(cs: seq<Child>): seq<Child> {
    var name := FirstNamed(cs, ByTag, "name");
    if name.Some? && !Has(cs, ByTag, "name_ru") then Appended(cs, "name_ru", TextOf(name.value)) else cs
  }

  /**
    The `name` half of `normalize_name_description`: create `name_ru`, remove the first
    `name`, then strip HTML from the first `name_ru` and the first `name_ua`.
   */
  function WithNames(cs: seq<Child>): seq<Child> {
    var cs1 := RemoveFirst(NameRuCreated(cs), ByTag, "name");
    RewriteFirst(RewriteFirst(cs1, ByTag, "name_ru", StripText), ByTag, "name_ua", StripText)
  }

  /** A `description_ru` is appended with the trimmed text of the first `description` when there is none. */
  function DescriptionRuCreated(cs: seq<Child>): seq<Child> {
    var description := FirstNamed(cs, ByTag, "description");
    if description.Some? && !Has(cs, ByTag, "description_ru") then Appended(cs, "description_ru", TextOf(description.value)) else cs
  }

  /**
    The `description` half: create `description_ru`, remove the first `description`, then
    trim the texts of the first `description_ru` and the first `description_ua`.
   */
  function WithDescriptions(cs: seq<Child>): seq<Child> {
    var cs1 := RemoveFirst(DescriptionRuCreated(cs), ByTag, "description");
    RewriteFirst(RewriteFirst(cs1, ByTag, "description_ru", NormalizeText), ByTag, "description_ua", NormalizeText)
  }

  /** The children after `normalize_name_description`. */
  function WithNameDescription(cs: seq<Child>): seq<Child> {
    WithDescriptions(WithNames(cs))
  }

  /** `normalize_name_description`. */
  method NormalizeNameDescription(offer: Offer)
    modifies offer
    ensures offer.Value() == old(offer.Value()).(children := WithNameDescription(old(offer.children)))
  {
    NormalizeNames(offer);
    NormalizeDescriptions(offer);
  }

  /** The `name` half of `normalize_name_description`. */
  method NormalizeNames(offer: Offer)
    modifies offer
    ensures offer.Value() == old(offer.Value()).(children := WithNames(old(offer.children)))
  {
    var name := FirstNamed(offer.children, ByTag, "name");
    if name.Some? && !Has(offer.children, ByTag, "name_ru") {
      offer.children := Appended(offer.children, "name_ru", TextOf(name.value));
    }
    offer.children := RemoveFirst(offer.children, ByTag, "name");
    offer.children := RewriteFirst(offer.children, ByTag, "name_ru", StripText);
    offer.children := RewriteFirst(offer.children, ByTag, "name_ua", StripText);
  }

  /** The `description` half of `normalize_name_description`. */
  method NormalizeDescriptions(offer: Offer)
    modifies offer
    ensures offer.Value() == old(offer.Value()).(children := WithDescriptions(old(offer.children)))
  {
    var description := FirstNamed(offer.children, ByTag, "description");
    if description.Some? && !Has(offer.children, ByTag, "description_ru") {
      offer.children := Appended(offer.children, "description_ru", TextOf(description.value));
    }
    offer.children := RemoveFirst(offer.children, ByTag, "description");
    offer.children := RewriteFirst(offer.children, ByTag, "description_ru", NormalizeText);
    offer.children := RewriteFirst(offer.children, ByTag, "description_ua", NormalizeText);
  }

  /** What is found under each name after creating `name_ru`. */
  lemma NameRuCreatedFound(cs: seq<Child>, m: string)
    ensures FirstNamed(NameRuCreated(cs), ByTag, m) ==
              if m == "name_ru" && !Has(cs, ByTag, "name_ru") && Has(cs, ByTag, "name")
              then Some(Child("name_ru", map[], Some(TextOf(FirstNamed(cs, ByTag, "name").value))))
              else FirstNamed(cs, ByTag, m)
    ensures Filter(NameRuCreated(cs), NamedAs(ByTag, "name")) == Filter(cs, NamedAs(ByTag, "name"))
  {
    var name := FirstNamed(cs, ByTag, "name");
    if name.Some? && !Has(cs, ByTag, "name_ru") {
      CreatedTagsPlain();
      FirstNamedAppend(cs, ByTag, "name_ru", TextOf(name.value), m);
      FilterNamedAppendOther(cs, ByTag, "name_ru", TextOf(name.value), "name");
    }
  }

  /**
    After the `name` half, the first `name_ru` is the old one, or, when there was none but
    there was a `name`, a new one with that name's text (even an empty one), in both cases
    stripped of HTML; the first `name_ua` is the old one stripped; every other name other
    than `name` finds what it found before. So a `name_ru` is present exactly when a
    `name_ru` or a `name` was.
   */
  lemma NamesFound(cs: seq<Child>, m: string)
    requires m != "name"
    ensures FirstNamed(WithNames(cs), ByTag, m) ==
              if m == "name_ru" then
                (if Has(cs, ByTag, "name_ru") then Retexted(FirstNamed(cs, ByTag, "name_ru"), StripText)
                 else if Has(cs, ByTag, "name") then Some(Child("name_ru", map[], Some(StripHtml(TextOf(FirstNamed(cs, ByTag, "name").value)))))
                 else None)
              else if m == "name_ua" then Retexted(FirstNamed(cs, ByTag, "name_ua"), StripText)
              else FirstNamed(cs, ByTag, m)
    ensures m == "name_ru" ==> (Has(WithNames(cs), ByTag, m) <==> Has(cs, ByTag, "name_ru") || Has(cs, ByTag, "name"))
  {
    var cs1 := NameRuCreated(cs);
    var cs2 := RemoveFirst(cs1, ByTag, "name");
    var cs3 := RewriteFirst(cs2, ByTag, "name_ru", StripText);
    NameRuCreatedFound(cs, m);
    FirstNamedRemove(cs1, ByTag, "name", m);
    FirstNamedRewrite(cs2, ByTag, "name_ru", StripText, m);
    FirstNamedRewrite(cs3, ByTag, "name_ua", StripText, m);
  }

  /** The `name` half removes exactly the first `name` child from the `name` children. */
  lemma NamesRemoved(cs: seq<Child>)
    ensures Filter(cs, NamedAs(ByTag, "name"))
            == (if Has(cs, ByTag, "name") then [FirstNamed(cs, ByTag, "name").value] else [])
               + Filter(WithNames(cs), NamedAs(ByTag, "name"))
  {
    var cs1 := NameRuCreated(cs);
    var cs2 := RemoveFirst(cs1, ByTag, "name");
    var cs3 := RewriteFirst(cs2, ByTag, "name_ru", StripText);
    NameRuCreatedFound(cs, "name");
    FilterNamedRewriteOther(cs2, ByTag, "name_ru", StripText, "name");
    FilterNamedRewriteOther(cs3, ByTag, "name_ua", StripText, "name");
    if Has(cs, ByTag, "name") {
      FilterNamedRemove(cs1, ByTag, "name", "name");
    } else {
      NotHasFilter(cs, ByTag, "name");
      NotHasFilter(cs1, ByTag, "name");
    }
  }

  /** What is found under each name after creating `description_ru`. */
  lemma DescriptionRuCreatedFound(cs: seq<Child>, m: string)
    ensures FirstNamed(DescriptionRuCreated(cs), ByTag, m) ==
              if m == "description_ru" && !Has(cs, ByTag, "description_ru") && Has(cs, ByTag, "description")
              then Some(Child("description_ru", map[], Some(TextOf(FirstNamed(cs, ByTag, "description").value))))
              else FirstNamed(cs, ByTag, m)
    ensures Filter(DescriptionRuCreated(cs), NamedAs(ByTag, "description")) == Filter(cs, NamedAs(ByTag, "description"))
  {
    var description := FirstNamed(cs, ByTag, "description");
    if description.Some? && !Has(cs, ByTag, "description_ru") {
      CreatedTagsPlain();
      FirstNamedAppend(cs, ByTag, "description_ru", TextOf(description.value), m);
      FilterNamedAppendOther(cs, ByTag, "description_ru", TextOf(description.value), "description");
    }
  }

  /**
    After the `description` half, the first `description_ru` is the old one, or, when there
    was none but there was a `description`, a new one with its text, in both cases trimmed;
    the first `description_ua` is the old one trimmed; every other name other than
    `description` finds what it found before.
   */
  lemma DescriptionsFound(cs: seq<Child>, m: string)
    requires m != "description"
    ensures FirstNamed(WithDescriptions(cs), ByTag, m) ==
              if m == "description_ru" then
                (if Has(cs, ByTag, "description_ru") then Retexted(FirstNamed(cs, ByTag, "description_ru"), NormalizeText)
                 else if Has(cs, ByTag, "description") then Some(Child("description_ru", map[], Some(TextOf(FirstNamed(cs, ByTag, "description").value))))
                 else None)
              else if m == "description_ua" then Retexted(FirstNamed(cs, ByTag, "description_ua"), NormalizeText)
              else FirstNamed(cs, ByTag, m)
  {
    var cs1 := DescriptionRuCreated(cs);
    var cs2 := RemoveFirst(cs1, ByTag, "description");
    var cs3 := RewriteFirst(cs2, ByTag, "description_ru", NormalizeText);
    DescriptionRuCreatedFound(cs, m);
    FirstNamedRemove(cs1, ByTag, "description", m);
    FirstNamedRewrite(cs2, ByTag, "description_ru", NormalizeText, m);
    FirstNamedRewrite(cs3, ByTag, "description_ua", NormalizeText, m);
    if m == "description_ru" && !Has(cs, ByTag, "description_ru") && Has(cs, ByTag, "description") {
      TrimTrimmed(TextOf(FirstNamed(cs, ByTag, "description").value));
    }
  }

  /** The `description` half removes exactly the first `description` child from the `description` children. */
  lemma DescriptionsRemoved(cs: seq<Child>)
    ensures Filter(cs, NamedAs(ByTag, "description"))
            == (if Has(cs, ByTag, "description") then [FirstNamed(cs, ByTag, "description").value] else [])
               + Filter(WithDescriptions(cs), NamedAs(ByTag, "description"))
  {
    var cs1 := DescriptionRuCreated(cs);
    var cs2 := RemoveFirst(cs1, ByTag, "description");
    var cs3 := RewriteFirst(cs2, ByTag, "description_ru", NormalizeText);
    DescriptionRuCreatedFound(cs, "description");
    FilterNamedRewriteOther(cs2, ByTag, "description_ru", NormalizeText, "description");
    FilterNamedRewriteOther(cs3, ByTag, "description_ua", NormalizeText, "description");
    if Has(cs, ByTag, "description") {
      FilterNamedRemove(cs1, ByTag, "description", "description");
    } else {
      NotHasFilter(cs, ByTag, "description");
      NotHasFilter(cs1, ByTag, "description");
    }
  }

  /** The `name` half leaves the children of every other name alone. */
  lemma NamesKeepOthers(cs: seq<Child>, m: string)
    requires m != "name" && m != "name_ru" && m != "name_ua"
    ensures Filter(WithNames(cs), NamedAs(ByTag, m)) == Filter(cs, NamedAs(ByTag, m))
  {
    var cs1 := NameRuCreated(cs);
    var cs2 := RemoveFirst(cs1, ByTag, "name");
    var cs3 := RewriteFirst(cs2, ByTag, "name_ru", StripText);
    var name := FirstNamed(cs, ByTag, "name");
    if name.Some? && !Has(cs, ByTag, "name_ru") {
      CreatedTagsPlain();
      FilterNamedAppendOther(cs, ByTag, "name_ru", TextOf(name.value), m);
    }
    FilterNamedRemove(cs1, ByTag, "name", m);
    FilterNamedRewriteOther(cs2, ByTag, "name_ru", StripText, m);
    FilterNamedRewriteOther(cs3, ByTag, "name_ua", StripText, m);
  }

  /** The `description` half leaves the children of every other name alone. */
  lemma DescriptionsKeepOthers(cs: seq<Child>, m: string)
    requires m != "description" && m != "description_ru" && m != "description_ua"
    ensures Filter(WithDescriptions(cs), NamedAs(ByTag, m)) == Filter(cs, NamedAs(ByTag, m))
  {
    var cs1 := DescriptionRuCreated(cs);
    var cs2 := RemoveFirst(cs1, ByTag, "description");
    var cs3 := RewriteFirst(cs2, ByTag, "description_ru", NormalizeText);
    var description := FirstNamed(cs, ByTag, "description");
    if description.Some? && !Has(cs, ByTag, "description_ru") {
      CreatedTagsPlain();
      FilterNamedAppendOther(cs, ByTag, "description_ru", TextOf(description.value), m);
    }
    FilterNamedRemove(cs1, ByTag, "description", m);
    FilterNamedRewriteOther(cs2, ByTag, "description_ru", NormalizeText, m);
    FilterNamedRewriteOther(cs3, ByTag, "description_ua", NormalizeText, m);
  }

  // ---------------------------------------------------------------------------
  // cleanup_params

  /** A `param` child with a non-empty cleaned name and a non-empty value. */
  predicate UsableParam(c: Child) {
    Is(Param(ByTag), c) && ParamUsable(c)
  }

  /**
    The children after `cleanup_params`: a param with an empty cleaned name or an empty
    value is removed, every other param gets its cleaned name, and other children stay.
   */
  function CleanedParams(cs: seq<Child>): seq<Child> {
    Clean(cs, Of(Param(ByTag)), ParamUsable, Renamed)
  }

  /** Renaming keeps a param a usable param with the same name and value, and renaming again changes nothing. */
  lemma RenamedSettled(c: Child)
    ensures Is(Param(ByTag), Renamed(c)) == Is(Param(ByTag), c)
    ensures ParamName(Renamed(c)) == ParamName(c) && TextOf(Renamed(c)) == TextOf(c)
    ensures AttrOf(Renamed(c).attrs, "name") == Some(ParamName(c))
    ensures Renamed(Renamed(c)) == Renamed(c)
  {
    StripHtmlIdempotent(AttrOf(c.attrs, "name").GetOr(""));
  }

  lemma RenamingSettles()
    ensures Keeps(Of(Param(ByTag)), ParamUsable, Renamed, Renamed)
  {
    forall c: Child {
      RenamedSettled(c);
    }
  }

  /** `cleanup_params` leaves every child that is not a param, in order. */
  lemma CleanedParamsKeepOthers(cs: seq<Child>)
    ensures Reject(CleanedParams(cs), Of(Param(ByTag))) == Reject(cs, Of(Param(ByTag)))
  {
    RenamingSettles();
    CleanReject(cs, Of(Param(ByTag)), ParamUsable, Renamed, Renamed);
  }

  /**
    The params after `cleanup_params` are exactly the usable params, in order, each with its
    cleaned name: no de-duplication, so params with the same name all survive.
   */
  lemma CleanedParamsRenamed(cs: seq<Child>)
    ensures Filter(CleanedParams(cs), Of(Param(ByTag))) == Map(Filter(cs, UsableParam), Renamed)
  {
    RenamingSettles();
    CleanFilter(cs, Of(Param(ByTag)), ParamUsable, UsableParam, Renamed, Renamed);
  }

  /** `cleanup_params` is idempotent. */
  lemma CleanedParamsIdempotent(cs: seq<Child>)
    ensures CleanedParams(CleanedParams(cs)) == CleanedParams(cs)
  {
    RenamingSettles();
    CleanIdempotent(cs, Of(Param(ByTag)), ParamUsable, Renamed);
  }

  /** `cleanup_params`. */
  method CleanupParams(offer: Offer)
    modifies offer
    ensures offer.Value() == old(offer.Value()).(children := CleanedParams(old(offer.children)))
  {
    var kept := KeptParams(offer.children);
    offer.children := kept;
  }

  /** The loop of `cleanup_params` over the children. */
  method KeptParams(cs: seq<Child>) returns (kept: seq<Child>)
    ensures kept == CleanedParams(cs)
  {
    kept := [];
    for i := 0 to |cs|
      invariant kept == CleanedParams(cs[..i])
    {
      var child := cs[i];
      CleanSnoc(cs[..i], child, Of(Param(ByTag)), ParamUsable, Renamed);
      assert cs[..i + 1] == cs[..i] + [child];
      if !Is(Param(ByTag), child) {
        kept := kept + [child];
        continue;
      }
      var name := ParamName(child);
      var value := TextOf(child);
      if name == "" || value == "" {
        continue;
      }
      kept := kept + [child.(attrs := child.attrs["name" := name])];
    }
    assert cs[..|cs|] == cs;
  }

  // ---------------------------------------------------------------------------
  // Picture cap

  /** A `picture` child with no text after trimming. */
  predicate EmptyPicture(c: Child) {
    Is(Picture(ByTag), c) && TextOf(c) == ""
  }

  /**
    The cap of `normalize_offer` counts only pictures with text: those are cut to the first
    MAX_PICTURES, in order, and every picture without text stays.
   */
  lemma CapKeepsEmptyPictures(cs: seq<Child>)
    ensures var filled := Filter(cs, Of(FilledPicture(ByTag)));
            Filter(KeepFirst(cs, Of(FilledPicture(ByTag)), MAX_PICTURES), Of(FilledPicture(ByTag))) == filled[..Min(MAX_PICTURES, |filled|)]
    ensures Filter(KeepFirst(cs, Of(FilledPicture(ByTag)), MAX_PICTURES), EmptyPicture) == Filter(cs, EmptyPicture)
  {
    KeepFirstFilter(cs, Of(FilledPicture(ByTag)), MAX_PICTURES);
    KeepFirstOther(cs, Of(FilledPicture(ByTag)), EmptyPicture, MAX_PICTURES);
  }
  // ---------------------------------------------------------------------------
  // normalize_offer

  /** The offer after the first three steps of `normalize_offer`: names and descriptions, old price, params. */
  function Cleaned(e: Element): Element {
    var e1 := e.(children := WithNameDescription(e.children));
    var e2 := WithOldPriceConsolidated(e1, ByTag);
    e2.(children := CleanedParams(e2.children))
  }

  /**
    The offer after `normalize_offer`, and its result: it stops, with `false`, when the id
    cannot be normalised; otherwise availability is coerced, the pictures with text are
    capped and the result is whether the required fields are present.
   */
  function Normalized(e: Element): (r: (Element, bool))
    ensures r.1 ==> RequiredFieldsPresent(r.0, ByTag)
  {
    var (e4, ok) := WithOfferId(Cleaned(e), ByTag);
    if !ok then (e4, false)
    else
      var e6 := Finished(e4, FilledPicture(ByTag));
      (e6, RequiredFieldsPresent(e6, ByTag))
  }

  /** `normalize_offer`. */
  method NormalizeOffer(offer: Offer) returns (ok: bool)
    modifies offer
    ensures (offer.Value(), ok) == Normalized(old(offer.Value()))
  {
    NormalizeNameDescription(offer);
    NormalizeOldPriceTag(offer, ByTag);
    CleanupParams(offer);
    var idOk := NormalizeOfferId(offer, ByTag);
    if !idOk {
      return false;
    }
    var _ := SetAvailable(offer, ExtractAvailable(offer.Value()));
    CapPictures(offer, FilledPicture(ByTag));
    ok := HasRequiredFields(offer, ByTag);
  }

  /** The first three steps of `normalize_offer` leave the pictures alone. */
  lemma CleanedKeepsPictures(e: Element)
    ensures Filter(Cleaned(e).children, Of(Picture(ByTag))) == Filter(e.children, Of(Picture(ByTag)))
  {
    var e1 := e.(children := WithNameDescription(e.children));
    var e2 := WithOldPriceConsolidated(e1, ByTag);
    NameDescriptionKeepsPictures(e.children);
    OldPriceKeepsPictures(e1);
    CleanedParamsKeepPictures(e2.children);
  }

  lemma NameDescriptionKeepsPictures(cs: seq<Child>)
    ensures Filter(WithNameDescription(cs), Of(Picture(ByTag))) == Filter(cs, Of(Picture(ByTag)))
  {
    var pic := Of(Picture(ByTag));
    var named := NamedAs(ByTag, "picture");
    NamesKeepOthers(cs, "picture");
    DescriptionsKeepOthers(WithNames(cs), "picture");
    FilterCongruence(cs, pic, named);
    FilterCongruence(WithNameDescription(cs), pic, named);
  }

  lemma OldPriceKeepsPictures(e: Element)
    ensures Filter(WithOldPriceConsolidated(e, ByTag).children, Of(Picture(ByTag))) == Filter(e.children, Of(Picture(ByTag)))
  {
    assert forall c :: Is(Picture(ByTag), c) ==> !Of(OldPrice(ByTag))(c) by {
      assert "picture" !in OLD_PRICE_TAGS;
    }
    RejectKeepsPictures(e.children, WithOldPriceConsolidated(e, ByTag).children, Of(OldPrice(ByTag)));
  }

  lemma CleanedParamsKeepPictures(cs: seq<Child>)
    ensures Filter(CleanedParams(cs), Of(Picture(ByTag))) == Filter(cs, Of(Picture(ByTag)))
  {
    CleanedParamsKeepOthers(cs);
    RejectKeepsPictures(cs, CleanedParams(cs), Of(Param(ByTag)));
  }

  /** Two lists that agree outside the children with `p`, which no picture has, have the same pictures. */
  lemma RejectKeepsPictures(before: seq<Child>, after: seq<Child>, p: Child -> bool)
    requires forall c :: Is(Picture(ByTag), c) ==> !p(c)
    requires Reject(after, p) == Reject(before, p)
    ensures Filter(after, Of(Picture(ByTag))) == Filter(before, Of(Picture(ByTag)))
  {
    FilterOfReject(after, p, Of(Picture(ByTag)));
    FilterOfReject(before, p, Of(Picture(ByTag)));
  }

  /** Lists with the same pictures have the same pictures with text and the same pictures without. */
  lemma SamePictures(before: seq<Child>, after: seq<Child>)
    requires Filter(after, Of(Picture(ByTag))) == Filter(before, Of(Picture(ByTag)))
    ensures Filter(after, Of(FilledPicture(ByTag))) == Filter(before, Of(FilledPicture(ByTag)))
    ensures Filter(after, EmptyPicture) == Filter(before, EmptyPicture)
  {
    FilterNarrow(after, Of(Picture(ByTag)), Of(FilledPicture(ByTag)));
    FilterNarrow(before, Of(Picture(ByTag)), Of(FilledPicture(ByTag)));
    FilterNarrow(after, Of(Picture(ByTag)), EmptyPicture);
    FilterNarrow(before, Of(Picture(ByTag)), EmptyPicture);
  }

  /** The pictures with text of `after` are the first MAX_PICTURES of those of `before`, in order. */
  predicate FirstFilledPictures(before: seq<Child>, after: seq<Child>) {
    var filled := Filter(before, Of(FilledPicture(ByTag)));
    Filter(after, Of(FilledPicture(ByTag))) == filled[..Min(MAX_PICTURES, |filled|)]
  }

  /**
    An offer `normalize_offer` keeps has the first MAX_PICTURES of its pictures with text, in
    order, and all of its pictures without text; `available` is "true" or "false"; `id` is a
    non-empty string over `[A-Za-z0-9]`; the six required texts are non-empty and a
    picture with text remains.
   */
  lemma NormalizedKept(e: Element)
    requires Normalized(e).1
    ensures FirstFilledPictures(e.children, Normalized(e).0.children)
    ensures Filter(Normalized(e).0.children, EmptyPicture) == Filter(e.children, EmptyPicture)
    ensures AttrText(Normalized(e).0.attrs, "available") in {"true", "false"}
    ensures CleanIdAttr(Normalized(e).0.attrs)
    ensures RequiredFieldsPresent(Normalized(e).0, ByTag)
  {
    var e4 := WithOfferId(Cleaned(e), ByTag).0;
    assert Normalized(e).0 == Finished(e4, FilledPicture(ByTag));
    assert CleanIdAttr(e4.attrs);
    FinishedAttrs(e4, FilledPicture(ByTag));
    CleanedKeepsPictures(e);
    SamePictures(e.children, e4.children);
    CapKeepsEmptyPictures(e4.children);
  }

  // ---------------------------------------------------------------------------
  // Repricing in the offer loop of main

  /** The value `set_or_create` writes: the trimmed value, through `set_or_create_child`'s rules. */
  function WithChildSetTrimmed(e: Element, tag: string, value: string): (r: (Element, bool)) {
    WithChildSet(e, ByTag, tag, Trim(value))
  }

  /**
    `set_or_create` settles: after it, the tag reads back as the trimmed value, and calling it
    again with the same value reports no change and changes nothing.
   */
  lemma SetOrCreateSettles(e: Element, tag: string, value: string)
    requires PlainTag(tag)
    ensures Trim(value) != "" ==> ChildText(WithChildSetTrimmed(e, tag, value).0, ByTag, tag) == Trim(value)
    ensures WithChildSetTrimmed(WithChildSetTrimmed(e, tag, value).0, tag, value) == (WithChildSetTrimmed(e, tag, value).0, false)
  {
    var r := WithChildSetTrimmed(e, tag, value).0;
    if Trim(value) != "" {
      ChildSetReadsBack(e, ByTag, tag, Trim(value));
      TrimTrimmed(Trim(value));
      assert ChildText(r, ByTag, tag) == Trim(value);
      assert FindFirst(r.children, ByTag, tag) < |r.children|;
    }
  }

  /** `set_or_create`. */
  method SetOrCreate(offer: Offer, tag: string, value: string) returns (changed: bool)
    modifies offer
    ensures (offer.Value(), changed) == WithChildSetTrimmed(old(offer.Value()), tag, value)
  {
    changed := SetOrCreateChild(offer, ByTag, tag, Trim(value));
  }

  /**
    The offer after the pricing updates of `main`'s loop, whether the price changed, and how
    many other changes (old price, availability) were counted. With a record, price, old
    price and availability are set from it; without one, availability is coerced from the
    offer's own and nothing is counted.
   */
  function Repriced(e: Element, record: Option<Record>): (Element, bool, nat) {
    if record.Some? then
      var (e1, priceChanged) := WithChildSetTrimmed(e, "price", record.value.price);
      var (e2, oldPriceChanged) := WithChildSetTrimmed(e1, "old_price", record.value.oldPrice);
      var (e3, availableChanged) := WithAvailable(e2, record.value.available);
      (e3, priceChanged, (if oldPriceChanged then 1 else 0) + (if availableChanged then 1 else 0))
    else
      (WithAvailable(e, ExtractAvailable(e)).0, false, 0)
  }

  /** An offer without a record keeps its children, so its price and old price, and counts no change. */
  lemma RepricedUnmatched(e: Element)
    ensures Repriced(e, None).0.children == e.children
    ensures AttrText(Repriced(e, None).0.attrs, "available") == CoerceAvailable(ExtractAvailable(e))
    ensures !Repriced(e, None).1 && Repriced(e, None).2 == 0
  {
  }

  /**
    An offer with a record reads back the record's trimmed price and old price when they
    are non-empty (keeping its own price otherwise) and has the record's coerced
    availability.
   */
  lemma RepricedMatched(e: Element, record: Record)
    ensures var r := Repriced(e, Some(record)).0;
            && (Trim(record.price) != "" ==> ChildText(r, ByTag, "price") == Trim(record.price))
            && (Trim(record.price) == "" ==> ChildText(r, ByTag, "price") == ChildText(e, ByTag, "price"))
            && (Trim(record.oldPrice) != "" ==> ChildText(r, ByTag, "old_price") == Trim(record.oldPrice))
            && AttrText(r.attrs, "available") == CoerceAvailable(record.available)
  {
    var r := Repriced(e, Some(record)).0;
    CreatedTagsPlain();
    ChildSetTwice(e, ByTag, "price", Trim(record.price), "old_price", Trim(record.oldPrice), r);
    TrimTrimmed(Trim(record.price));
    TrimTrimmed(Trim(record.oldPrice));
  }

  /**
    An offer with a record counts a price change exactly when its price text differed from
    the record's trimmed, non-empty price or was missing. One other change is counted when
    the record's trimmed old price is non-empty and the offer's `old_price` differs from it
    or is missing, and one more when the offer's availability differs from the record's
    coerced one.
   */
  lemma RepricedMatchedCounts(e: Element, record: Record)
    ensures Repriced(e, Some(record)).1 <==>
              Trim(record.price) != "" && (!Has(e.children, ByTag, "price") || ChildText(e, ByTag, "price") != Trim(record.price))
    ensures Repriced(e, Some(record)).2 <= 2
    ensures Repriced(e, Some(record)).2 ==
              (if Trim(record.oldPrice) != "" && (!Has(e.children, ByTag, "old_price") || ChildText(e, ByTag, "old_price") != Trim(record.oldPrice)) then 1 else 0)
              + (if AttrText(e.attrs, "available") != CoerceAvailable(record.available) then 1 else 0)
  {
    var e1 := WithChildSetTrimmed(e, "price", record.price).0;
    CreatedTagsPlain();
    ChildSetOthers(e, ByTag, "price", Trim(record.price), "old_price");
    assert Has(e1.children, ByTag, "old_price") == Has(e.children, ByTag, "old_price") by {
      assert FirstNamed(e1.children, ByTag, "old_price") == FirstNamed(e.children, ByTag, "old_price");
    }
  }

  /** The pricing updates of `main`'s loop: `set_or_create` of price and old price and `set_available`. */
  method Reprice(offer: Offer, record: Option<Record>) returns (priceChanged: bool, otherChanged: nat)
    modifies offer
    ensures (offer.Value(), priceChanged, otherChanged) == Repriced(old(offer.Value()), record)
  {
    if record.Some? {
      priceChanged, otherChanged := RepriceFromRecord(offer, record.value);
    } else {
      var _ := SetAvailable(offer, ExtractAvailable(offer.Value()));
      priceChanged, otherChanged := false, 0;
    }
  }

  /** The branch of `main`'s loop for an offer with a record. */
  method RepriceFromRecord(offer: Offer, record: Record) returns (priceChanged: bool, otherChanged: nat)
    modifies offer
    ensures (offer.Value(), priceChanged, otherChanged) == Repriced(old(offer.Value()), Some(record))
  {
    priceChanged := SetOrCreate(offer, "price", record.price);
    ghost var e1 := offer.Value();
    var oldPriceChanged := SetOrCreate(offer, "old_price", record.oldPrice);
    ghost var e2 := offer.Value();
    assert (e2, oldPriceChanged) == WithChildSetTrimmed(e1, "old_price", record.oldPrice);
    otherChanged := if oldPriceChanged then 1 else 0;
    var availableChanged := SetAvailable(offer, record.available);
    if availableChanged {
      otherChanged := otherChanged + 1;
    }
  }
}
