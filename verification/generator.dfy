/**
  The rewrite steps of the one-shot generator (scripts/generate_maudau_feed.py) that
  differ from the update job's: the name and description rewrite, parameter cleanup
  with de-duplication, the picture cap over every picture, the whole per-offer
  normalisation, and the repricing of an offer from the pricing index. Children are
  matched by local name, with any `{namespace}` prefix ignored.
 */
module Generator {
  import opened Wrappers
  import opened Text
  import opened Seqs
  import opened Feed

  // ---------------------------------------------------------------------------
  // normalize_required_texts

  /** `strip_html` of the first `name` child's text, "" when there is no `name` child. */
  function NameValue(cs: seq<Child>): string {
    var name := FirstNamed(cs, ByLocalName, "name");
    if name.Some? then StripText(name.value.text) else ""
  }

  /**
    The `name_ru` step: a `name_ru` is appended from a non-empty stripped `name` when there
    is none, otherwise the first `name_ru` (if any) is stripped.
   */
  function NameRuStep(cs: seq<Child>): seq<Child> {
    var value := NameValue(cs);
    if !Has(cs, ByLocalName, "name_ru") && value != "" then Appended(cs, "name_ru", value)
    else RewriteFirst(cs, ByLocalName, "name_ru", StripText)
  }

  /**
    The `name` half of `normalize_required_texts`: the `name_ru` step, then the first
    `name_ua` stripped and the first `name` removed.
   */
  function WithNames(cs: seq<Child>): seq<Child> {
    RemoveFirst(RewriteFirst(NameRuStep(cs), ByLocalName, "name_ua", StripText), ByLocalName, "name")
  }

  /** The trimmed text of the first `description` child, "" when there is none. */
  function DescriptionValue(cs: seq<Child>): string {
    var description := FirstNamed(cs, ByLocalName, "description");
    if description.Some? then TextOf(description.value) else ""
  }

  /**
    The `description` half: a `description_ru` is appended from a non-empty `description`
    when there is none, and the first `description` is removed.
   */
  function WithDescriptions(cs: seq<Child>): seq<Child> {
    var value := DescriptionValue(cs);
    var cs1 := if !Has(cs, ByLocalName, "description_ru") && value != "" then Appended(cs, "description_ru", value) else cs;
    RemoveFirst(cs1, ByLocalName, "description")
  }

  /** The offer after `normalize_required_texts`, with a missing text read as "". */
  function WithRequiredTexts(e: Element): Element {
    e.(children := WithDescriptions(WithNames(e.children)))
  }

  /** `normalize_required_texts`. */
  method NormalizeRequiredTexts(offer: Offer)
    modifies offer
    ensures offer.Value() == WithRequiredTexts(old(offer.Value()))
  {
    NormalizeNames(offer);
    NormalizeDescriptions(offer);
  }

  /** The `name` half of `normalize_required_texts`. */
  method NormalizeNames(offer: Offer)
    modifies offer
    ensures offer.Value() == old(offer.Value()).(children := WithNames(old(offer.children)))
  {
    var value := NameValue(offer.children);
    if !Has(offer.children, ByLocalName, "name_ru") && value != "" {
      offer.children := Appended(offer.children, "name_ru", value);
    } else {
      offer.children := RewriteFirst(offer.children, ByLocalName, "name_ru", StripText);
    }
    offer.children := RewriteFirst(offer.children, ByLocalName, "name_ua", StripText);
    offer.children := RemoveFirst(offer.children, ByLocalName, "name");
  }

  /** The `description` half of `normalize_required_texts`. */
  method NormalizeDescriptions(offer: Offer)
    modifies offer
    ensures offer.Value() == old(offer.Value()).(children := WithDescriptions(old(offer.children)))
  {
    var description := DescriptionValue(offer.children);
    if !Has(offer.children, ByLocalName, "description_ru") && description != "" {
      offer.children := Appended(offer.children, "description_ru", description);
    }
    offer.children := RemoveFirst(offer.children, ByLocalName, "description");
  }

  /** What is found under each name after the `name_ru` step. */
  lemma NameRuStepFound(cs: seq<Child>, m: string)
    ensures FirstNamed(NameRuStep(cs), ByLocalName, m) ==
              if m != "name_ru" then FirstNamed(cs, ByLocalName, m)
              else if Has(cs, ByLocalName, "name_ru") || NameValue(cs) == "" then Retexted(FirstNamed(cs, ByLocalName, "name_ru"), StripText)
              else Some(Child("name_ru", map[], Some(NameValue(cs))))
    ensures Filter(NameRuStep(cs), NamedAs(ByLocalName, "name")) == Filter(cs, NamedAs(ByLocalName, "name"))
  {
    var value := NameValue(cs);
    CreatedTagsPlain();
    if !Has(cs, ByLocalName, "name_ru") && value != "" {
      FirstNamedAppend(cs, ByLocalName, "name_ru", value, m);
      FilterNamedAppendOther(cs, ByLocalName, "name_ru", value, "name");
    } else {
      FirstNamedRewrite(cs, ByLocalName, "name_ru", StripText, m);
      FilterNamedRewriteOther(cs, ByLocalName, "name_ru", StripText, "name");
    }
  }

  /** What is found under each name other than `name` after the `name` half. */
  lemma NamesFound(cs: seq<Child>, m: string)
    requires m != "name"
    ensures FirstNamed(WithNames(cs), ByLocalName, m) ==
              if m == "name_ru" then
                (if Has(cs, ByLocalName, "name_ru") || NameValue(cs) == "" then Retexted(FirstNamed(cs, ByLocalName, "name_ru"), StripText)
                 else Some(Child("name_ru", map[], Some(NameValue(cs)))))
              else if m == "name_ua" then Retexted(FirstNamed(cs, ByLocalName, "name_ua"), StripText)
              else FirstNamed(cs, ByLocalName, m)
  {
    var cs1 := NameRuStep(cs);
    var cs2 := RewriteFirst(cs1, ByLocalName, "name_ua", StripText);
    assert FirstNamed(WithNames(cs), ByLocalName, m) == FirstNamed(cs2, ByLocalName, m) by {
      FirstNamedRemove(cs2, ByLocalName, "name", m);
    }
    assert FirstNamed(cs2, ByLocalName, m) == if m == "name_ua" then Retexted(FirstNamed(cs1, ByLocalName, m), StripText) else FirstNamed(cs1, ByLocalName, m) by {
      FirstNamedRewrite(cs1, ByLocalName, "name_ua", StripText, m);
    }
    NameRuStepFound(cs, m);
  }

  /** The `name` half removes exactly the first `name` child from the `name` children. */
  lemma NamesRemoved(cs: seq<Child>)
    ensures Filter(cs, NamedAs(ByLocalName, "name"))
            == (if Has(cs, ByLocalName, "name") then [FirstNamed(cs, ByLocalName, "name").value] else [])
               + Filter(WithNames(cs), NamedAs(ByLocalName, "name"))
  {
    var cs1 := NameRuStep(cs);
    var cs2 := RewriteFirst(cs1, ByLocalName, "name_ua", StripText);
    assert Filter(cs2, NamedAs(ByLocalName, "name")) == Filter(cs, NamedAs(ByLocalName, "name"))
        && FirstNamed(cs2, ByLocalName, "name") == FirstNamed(cs, ByLocalName, "name") by {
      NameRuStepFound(cs, "name");
      FilterNamedRewriteOther(cs1, ByLocalName, "name_ua", StripText, "name");
      FirstNamedRewrite(cs1, ByLocalName, "name_ua", StripText, "name");
    }
    if Has(cs, ByLocalName, "name") {
      FilterNamedRemove(cs2, ByLocalName, "name", "name");
    } else {
      NotHasFilter(cs, ByLocalName, "name");
      NotHasFilter(cs2, ByLocalName, "name");
    }
  }
  /** What is found under each name other than `description` after the `description` half. */
  lemma DescriptionsFound(cs: seq<Child>, m: string)
    requires m != "description"
    ensures FirstNamed(WithDescriptions(cs), ByLocalName, m) ==
              if m == "description_ru" && !Has(cs, ByLocalName, "description_ru") && DescriptionValue(cs) != ""
              then Some(Child("description_ru", map[], Some(DescriptionValue(cs))))
              else FirstNamed(cs, ByLocalName, m)
  {
    var value := DescriptionValue(cs);
    var cs1 := if !Has(cs, ByLocalName, "description_ru") && value != "" then Appended(cs, "description_ru", value) else cs;
    FirstNamedRemove(cs1, ByLocalName, "description", m);
    if !Has(cs, ByLocalName, "description_ru") && value != "" {
      CreatedTagsPlain();
      FirstNamedAppend(cs, ByLocalName, "description_ru", value, m);
    }
  }

  /** The `description` half removes exactly the first `description` child from the `description` children. */
  lemma DescriptionsRemoved(cs: seq<Child>)
    ensures Filter(cs, NamedAs(ByLocalName, "description"))
            == (if Has(cs, ByLocalName, "description") then [FirstNamed(cs, ByLocalName, "description").value] else [])
               + Filter(WithDescriptions(cs), NamedAs(ByLocalName, "description"))
  {
    var value := DescriptionValue(cs);
    var cs1 := if !Has(cs, ByLocalName, "description_ru") && value != "" then Appended(cs, "description_ru", value) else cs;
    assert Filter(cs1, NamedAs(ByLocalName, "description")) == Filter(cs, NamedAs(ByLocalName, "description"))
        && FirstNamed(cs1, ByLocalName, "description") == FirstNamed(cs, ByLocalName, "description") by {
      if cs1 != cs {
        CreatedTagsPlain();
        FilterNamedAppendOther(cs, ByLocalName, "description_ru", value, "description");
        FirstNamedAppend(cs, ByLocalName, "description_ru", value, "description");
      }
    }
    if Has(cs, ByLocalName, "description") {
      FilterNamedRemove(cs1, ByLocalName, "description", "description");
    } else {
      NotHasFilter(cs, ByLocalName, "description");
      NotHasFilter(cs1, ByLocalName, "description");
    }
  }

  /** The `name` half leaves the children of every other name alone. */
  lemma NamesKeepOthers(cs: seq<Child>, m: string)
    requires m != "name" && m != "name_ru" && m != "name_ua"
    ensures Filter(WithNames(cs), NamedAs(ByLocalName, m)) == Filter(cs, NamedAs(ByLocalName, m))
  {
    var value := NameValue(cs);
    var cs1 := NameRuStep(cs);
    var cs2 := RewriteFirst(cs1, ByLocalName, "name_ua", StripText);
    assert Filter(cs1, NamedAs(ByLocalName, m)) == Filter(cs, NamedAs(ByLocalName, m)) by {
      if !Has(cs, ByLocalName, "name_ru") && value != "" {
        CreatedTagsPlain();
        FilterNamedAppendOther(cs, ByLocalName, "name_ru", value, m);
      } else {
        FilterNamedRewriteOther(cs, ByLocalName, "name_ru", StripText, m);
      }
    }
    FilterNamedRewriteOther(cs1, ByLocalName, "name_ua", StripText, m);
    FilterNamedRemove(cs2, ByLocalName, "name", m);
  }

  /** The `description` half leaves the children of every other name alone. */
  lemma DescriptionsKeepOthers(cs: seq<Child>, m: string)
    requires m != "description" && m != "description_ru"
    ensures Filter(WithDescriptions(cs), NamedAs(ByLocalName, m)) == Filter(cs, NamedAs(ByLocalName, m))
  {
    var value := DescriptionValue(cs);
    var cs1 := if !Has(cs, ByLocalName, "description_ru") && value != "" then Appended(cs, "description_ru", value) else cs;
    if cs1 != cs {
      CreatedTagsPlain();
      FilterNamedAppendOther(cs, ByLocalName, "description_ru", value, m);
    }
    FilterNamedRemove(cs1, ByLocalName, "description", m);
  }

  /**
    After `normalize_required_texts`, the first `name_ru` is the old one stripped of HTML, or,
    when there was none and `name` gave a non-empty value, a new one carrying that value;
    the first `name_ua` is the old one stripped; a `description_ru` is created from a non-empty
    `description` only when there was none; every other name finds what it found before.
   */
  lemma RequiredTextsFound(e: Element, m: string)
    requires m != "name" && m != "description"
    ensures var cs := e.children;
            FirstNamed(WithRequiredTexts(e).children, ByLocalName, m) ==
              if m == "name_ru" then
                (if Has(cs, ByLocalName, "name_ru") || NameValue(cs) == "" then Retexted(FirstNamed(cs, ByLocalName, "name_ru"), StripText)
                 else Some(Child("name_ru", map[], Some(NameValue(cs)))))
              else if m == "name_ua" then Retexted(FirstNamed(cs, ByLocalName, "name_ua"), StripText)
              else if m == "description_ru" && !Has(cs, ByLocalName, "description_ru") && DescriptionValue(cs) != ""
              then Some(Child("description_ru", map[], Some(DescriptionValue(cs))))
              else FirstNamed(cs, ByLocalName, m)
  {
    var cs := e.children;
    var named := WithNames(cs);
    NamesFound(cs, "description");
    NamesFound(cs, "description_ru");
    assert DescriptionValue(named) == DescriptionValue(cs);
    assert Has(named, ByLocalName, "description_ru") == Has(cs, ByLocalName, "description_ru");
    DescriptionsFound(named, m);
    NamesFound(cs, m);
  }

  /**
    `normalize_required_texts` removes exactly the first `name` and the first `description`
    child, and no other child of those names.
   */
  lemma RequiredTextsRemoved(e: Element)
    ensures var cs := e.children;
            var r := WithRequiredTexts(e).children;
            && Filter(cs, NamedAs(ByLocalName, "name"))
               == (if Has(cs, ByLocalName, "name") then [FirstNamed(cs, ByLocalName, "name").value] else [])
                  + Filter(r, NamedAs(ByLocalName, "name"))
            && Filter(cs, NamedAs(ByLocalName, "description"))
               == (if Has(cs, ByLocalName, "description") then [FirstNamed(cs, ByLocalName, "description").value] else [])
                  + Filter(r, NamedAs(ByLocalName, "description"))
  {
    var cs := e.children;
    var named := WithNames(cs);
    NamesRemoved(cs);
    DescriptionsKeepOthers(named, "name");
    NamesKeepOthers(cs, "description");
    NamesFound(cs, "description");
    DescriptionsRemoved(named);
  }

  /** A found child whose text is free of HTML tags and surrounding whitespace. */
  predicate CleanText(c: Option<Child>) {
    c.Some? ==> c.value.text.Some? && TagFree(c.value.text.value) && IsTrimmed(c.value.text.value)
  }

  /** After `normalize_required_texts` the first `name_ru` and `name_ua`, when present, carry clean text. */
  lemma RequiredNamesClean(e: Element)
    ensures CleanText(FirstNamed(WithRequiredTexts(e).children, ByLocalName, "name_ru"))
    ensures CleanText(FirstNamed(WithRequiredTexts(e).children, ByLocalName, "name_ua"))
    ensures Has(WithRequiredTexts(e).children, ByLocalName, "name_ru")
            <==> Has(e.children, ByLocalName, "name_ru") || NameValue(e.children) != ""
  {
    var cs := e.children;
    RequiredTextsFound(e, "name_ru");
    RequiredTextsFound(e, "name_ua");
    var name := FirstNamed(cs, ByLocalName, "name");
    var nameRu := FirstNamed(cs, ByLocalName, "name_ru");
    var nameUa := FirstNamed(cs, ByLocalName, "name_ua");
    if name.Some? {
      StripHtmlIdempotent(name.value.text.GetOr(""));
    }
    if nameRu.Some? {
      StripHtmlIdempotent(nameRu.value.text.GetOr(""));
    }
    if nameUa.Some? {
      StripHtmlIdempotent(nameUa.value.text.GetOr(""));
    }
  }

  // ---------------------------------------------------------------------------
  // normalize_required_texts as written

  /** A found child whose text is `None`: `strip_html` raises a TypeError on it. */
  predicate TextMissing(c: Option<Child>) {
    c.Some? && c.value.text.None?
  }

  /**
    The `name` half exactly as written: `strip_html` is applied to the raw text of `name`,
    `name_ru` and `name_ua`, and a child of those names without text makes it raise, which
    aborts the whole run (`None` here).
   */
  function WithNamesAsWritten(cs: seq<Child>): Option<seq<Child>> {
    var name := FirstNamed(cs, ByLocalName, "name");
    var nameRu := FirstNamed(cs, ByLocalName, "name_ru");
    var nameUa := FirstNamed(cs, ByLocalName, "name_ua");
    if TextMissing(name) then None
    else
      var value := StripHtml(if name.Some? then name.value.text.value else "");
      if !(nameRu.None? && value != "") && TextMissing(nameRu) then None
      else
        var cs1 := if nameRu.None? && value != "" then Appended(cs, "name_ru", value)
                   else RewriteFirst(cs, ByLocalName, "name_ru", StripText);
        if TextMissing(nameUa) then None
        else Some(RemoveFirst(RewriteFirst(cs1, ByLocalName, "name_ua", StripText), ByLocalName, "name"))
  }

  /**
    The code as written aborts exactly when the first `name`, `name_ru` or `name_ua` child
    has no text; otherwise it agrees with `WithNames`.
   */
  lemma NamesAsWrittenAgrees(cs: seq<Child>)
    ensures var name := FirstNamed(cs, ByLocalName, "name");
            var nameRu := FirstNamed(cs, ByLocalName, "name_ru");
            var nameUa := FirstNamed(cs, ByLocalName, "name_ua");
            WithNamesAsWritten(cs) == if TextMissing(name) || TextMissing(nameRu) || TextMissing(nameUa) then None
                                      else Some(WithNames(cs))
  {
  }

  /**
    A `name` child without text, `<name/>`, makes the code as written abort the run, where
    the intended behaviour drops the empty `name` and goes on.
   */
  lemma EmptyNameAborts()
    ensures WithNamesAsWritten([Child("name", map[], None)]) == None
    ensures WithNames([Child("name", map[], None)]) == []
  {
    var c := Child("name", map[], None);
    var cs := [c];
    assert PlainTag("name");
    PlainTagNamed(ByLocalName, c);
    assert !Has(cs, ByLocalName, "name_ru") && !Has(cs, ByLocalName, "name_ua") by {
      assert LocalName(c.tag) == "name";
    }
    assert StripText(None) == "" by {
      assert StripTags("") == "";
    }
  }
  // ---------------------------------------------------------------------------
  // cleanup_params

  /** The de-duplication key of a param: its cleaned name, case-folded. */
  function ParamKey(c: Child): string {
    NormalizeKey(Some(ParamName(c)))
  }

  /**
    The children `cleanup_params` keeps, in order: every child that is not a param; a param
    with a non-empty cleaned name and value whose key no earlier kept param has, renamed to
    its cleaned name; every other param is removed.
   */
  function CleanedParams(cs: seq<Child>): seq<Child> {
    Dedup(cs, Of(Param(ByLocalName)), ParamUsable, ParamKey, Renamed)
  }

  /** Renaming keeps a param a param, with the same cleaned name, key and value, and stores the cleaned name. */
  lemma RenamedFacts(c: Child)
    ensures Is(Param(ByLocalName), Renamed(c)) == Is(Param(ByLocalName), c)
    ensures ParamName(Renamed(c)) == ParamName(c) && ParamKey(Renamed(c)) == ParamKey(c)
    ensures ParamUsable(Renamed(c)) == ParamUsable(c)
    ensures AttrOf(Renamed(c).attrs, "name") == Some(ParamName(c))
  {
    StripHtmlIdempotent(AttrOf(c.attrs, "name").GetOr(""));
  }

  /** Renaming changes nothing that `cleanup_params` decides by. */
  lemma RenamingKeeps()
    ensures Keeps(Of(Param(ByLocalName)), ParamUsable, ParamKey, Renamed)
  {
    forall c: Child
      ensures Is(Param(ByLocalName), Renamed(c)) == Is(Param(ByLocalName), c)
              && ParamUsable(Renamed(c)) == ParamUsable(c) && ParamKey(Renamed(c)) == ParamKey(c)
    {
      RenamedFacts(c);
    }
  }

  /** `cleanup_params` keeps every child that is not a param, in order. */
  lemma CleanedParamsKeepOthers(cs: seq<Child>)
    ensures Reject(CleanedParams(cs), Of(Param(ByLocalName))) == Reject(cs, Of(Param(ByLocalName)))
  {
    RenamingKeeps();
    DedupReject(cs, Of(Param(ByLocalName)), ParamUsable, ParamKey, Renamed);
  }

  /** A param is the first usable param with its key. */
  predicate FirstUsableOfKey(cs: seq<Child>, i: nat)
    requires i < |cs|
  {
    FirstOkOfKey(cs, i, Of(Param(ByLocalName)), ParamUsable, ParamKey)
  }

  /**
    The first usable param of every key survives `cleanup_params`, renamed to its cleaned
    name, and every param that survives is one of those.
   */
  lemma CleanedParamsFirstWins(cs: seq<Child>)
    ensures forall i :: 0 <= i < |cs| && FirstUsableOfKey(cs, i) ==> Renamed(cs[i]) in CleanedParams(cs)
    ensures forall c :: c in CleanedParams(cs) && Is(Param(ByLocalName), c) ==>
              exists i :: 0 <= i < |cs| && FirstUsableOfKey(cs, i) && c == Renamed(cs[i])
  {
    RenamingKeeps();
    DedupFirstKept(cs, Of(Param(ByLocalName)), ParamUsable, ParamKey, Renamed);
    DedupKeptFirst(cs, Of(Param(ByLocalName)), ParamUsable, ParamKey, Renamed);
  }

  /** The params that `cleanup_params` keeps have pairwise different keys. */
  lemma CleanedParamsDistinct(cs: seq<Child>)
    ensures forall i, j :: 0 <= i < j < |Filter(CleanedParams(cs), Of(Param(ByLocalName)))| ==>
              ParamKey(Filter(CleanedParams(cs), Of(Param(ByLocalName)))[i])
              != ParamKey(Filter(CleanedParams(cs), Of(Param(ByLocalName)))[j])
  {
    RenamingKeeps();
    DedupDistinct(cs, Of(Param(ByLocalName)), ParamUsable, ParamKey, Renamed);
  }

  /**
    The params that `cleanup_params` keeps are, in document order, the first usable param of
    every key, each renamed to its cleaned name: removing children in place never reorders
    the ones that stay.
   */
  lemma CleanedParamsInOrder(cs: seq<Child>)
    ensures Filter(CleanedParams(cs), Of(Param(ByLocalName)))
            == FirstOfKeys(cs, Of(Param(ByLocalName)), ParamUsable, ParamKey, Renamed)
  {
    RenamingKeeps();
    DedupFilterOrder(cs, Of(Param(ByLocalName)), ParamUsable, ParamKey, Renamed);
  }

  /** Every param that `cleanup_params` keeps is usable and carries its cleaned name in the `name` attribute. */
  lemma CleanedParamsNamed(cs: seq<Child>)
    ensures forall c :: c in CleanedParams(cs) && Is(Param(ByLocalName), c) ==>
              ParamUsable(c) && AttrOf(c.attrs, "name") == Some(ParamName(c))
  {
    CleanedParamsFirstWins(cs);
    forall c | c in CleanedParams(cs) && Is(Param(ByLocalName), c)
      ensures ParamUsable(c) && AttrOf(c.attrs, "name") == Some(ParamName(c))
    {
      var k :| 0 <= k < |cs| && FirstUsableOfKey(cs, k) && c == Renamed(cs[k]);
      RenamedFacts(cs[k]);
    }
  }

  /** `cleanup_params`. */
  method CleanupParams(offer: Offer)
    modifies offer
    ensures offer.Value() == old(offer.Value()).(children := CleanedParams(old(offer.children)))
  {
    var kept := KeptParams(offer.children);
    offer.children := kept;
  }

  /** The loop of `cleanup_params`, with `seen_names` the keys of the params kept so far. */
  method KeptParams(cs: seq<Child>) returns (kept: seq<Child>)
    ensures kept == CleanedParams(cs)
  {
    var p := Of(Param(ByLocalName));
    kept := [];
    var seenNames: set<string> := {};
    for i := 0 to |cs|
      invariant kept == CleanedParams(cs[..i])
      invariant seenNames == KeySet(kept, p, ParamKey)
    {
      var child := cs[i];
      assert cs[..i + 1] == cs[..i] + [child];
      DedupSnoc(cs[..i], child, p, ParamUsable, ParamKey, Renamed);
      if LocalName(child.tag) != "param" {
        KeySetSnoc(kept, child, p, ParamKey);
        kept := kept + [child];
        continue;
      }
      var name := StripHtml(AttrOf(child.attrs, "name").GetOr(""));
      var value := TextOf(child);
      var key := NormalizeKey(Some(name));
      if name == "" || value == "" || key in seenNames {
        continue;
      }
      RenamedFacts(child);
      KeySetSnoc(kept, Renamed(child), p, ParamKey);
      kept := kept + [child.(attrs := child.attrs["name" := name])];
      seenNames := seenNames + {key};
    }
    assert cs[..|cs|] == cs;
  }
  // ---------------------------------------------------------------------------
  // normalize_offer

  /** The offer after the first three steps of `normalize_offer`: required texts, old price, params. */
  function Cleaned(e: Element): Element {
    var e1 := WithRequiredTexts(e);
    var e2 := WithOldPriceConsolidated(e1, ByLocalName);
    e2.(children := CleanedParams(e2.children))
  }

  /**
    The offer after `normalize_offer`, and its result: it stops, with `false`, when the id
    cannot be normalised; otherwise availability is coerced, the pictures are capped and the
    result is whether the required fields are present.
   */
  function Normalized(e: Element): (r: (Element, bool))
    ensures r.1 ==> RequiredFieldsPresent(r.0, ByLocalName)
  {
    var (e4, ok) := WithOfferId(Cleaned(e), ByLocalName);
    if !ok then (e4, false)
    else
      var e6 := Finished(e4, Picture(ByLocalName));
      (e6, RequiredFieldsPresent(e6, ByLocalName))
  }

  /** `normalize_offer`. */
  method NormalizeOffer(offer: Offer) returns (ok: bool)
    modifies offer
    ensures (offer.Value(), ok) == Normalized(old(offer.Value()))
  {
    NormalizeRequiredTexts(offer);
    NormalizeOldPriceTag(offer, ByLocalName);
    CleanupParams(offer);
    var idOk := NormalizeOfferId(offer, ByLocalName);
    if !idOk {
      return false;
    }
    var _ := SetAvailable(offer, ExtractAvailable(offer.Value()));
    CapPictures(offer, Picture(ByLocalName));
    ok := HasRequiredFields(offer, ByLocalName);
  }

  /** The first three steps of `normalize_offer` leave the pictures alone. */
  lemma CleanedKeepsPictures(e: Element)
    ensures Filter(Cleaned(e).children, Of(Picture(ByLocalName))) == Filter(e.children, Of(Picture(ByLocalName)))
  {
    var e1 := WithRequiredTexts(e);
    var e2 := WithOldPriceConsolidated(e1, ByLocalName);
    RequiredTextsKeepPictures(e.children);
    OldPriceKeepsPictures(e1);
    CleanedParamsKeepPictures(e2.children);
  }

  lemma CleanedParamsKeepPictures(cs: seq<Child>)
    ensures Filter(CleanedParams(cs), Of(Picture(ByLocalName))) == Filter(cs, Of(Picture(ByLocalName)))
  {
    CleanedParamsKeepOthers(cs);
    RejectKeepsPictures(cs, CleanedParams(cs), Of(Param(ByLocalName)));
  }

  lemma RequiredTextsKeepPictures(cs: seq<Child>)
    ensures Filter(WithDescriptions(WithNames(cs)), Of(Picture(ByLocalName))) == Filter(cs, Of(Picture(ByLocalName)))
  {
    var pic := Of(Picture(ByLocalName));
    var named := NamedAs(ByLocalName, "picture");
    NamesKeepOthers(cs, "picture");
    DescriptionsKeepOthers(WithNames(cs), "picture");
    FilterCongruence(cs, pic, named);
    FilterCongruence(WithDescriptions(WithNames(cs)), pic, named);
  }

  lemma OldPriceKeepsPictures(e: Element)
    ensures Filter(WithOldPriceConsolidated(e, ByLocalName).children, Of(Picture(ByLocalName)))
            == Filter(e.children, Of(Picture(ByLocalName)))
  {
    assert forall c :: Is(Picture(ByLocalName), c) ==> !Of(OldPrice(ByLocalName))(c) by {
      assert "picture" !in OLD_PRICE_TAGS;
    }
    RejectKeepsPictures(e.children, WithOldPriceConsolidated(e, ByLocalName).children, Of(OldPrice(ByLocalName)));
  }

  /** Two lists that agree outside the children with `p`, which no picture has, have the same pictures. */
  lemma RejectKeepsPictures(before: seq<Child>, after: seq<Child>, p: Child -> bool)
    requires forall c :: Is(Picture(ByLocalName), c) ==> !p(c)
    requires Reject(after, p) == Reject(before, p)
    ensures Filter(after, Of(Picture(ByLocalName))) == Filter(before, Of(Picture(ByLocalName)))
  {
    FilterOfReject(after, p, Of(Picture(ByLocalName)));
    FilterOfReject(before, p, Of(Picture(ByLocalName)));
  }

  /** The pictures of `after` are the first MAX_PICTURES pictures of `before`, in order. */
  predicate FirstPictures(before: seq<Child>, after: seq<Child>) {
    var pictures := Filter(before, Of(Picture(ByLocalName)));
    Filter(after, Of(Picture(ByLocalName))) == pictures[..Min(MAX_PICTURES, |pictures|)]
  }

  /**
    An offer `normalize_offer` keeps has the first MAX_PICTURES of its original pictures, in
    order, and no other picture; `available` is "true" or "false"; `id` is a non-empty string
    over `[A-Za-z0-9]`; the six required texts are non-empty and a non-empty picture remains.
   */
  lemma NormalizedKept(e: Element)
    requires Normalized(e).1
    ensures FirstPictures(e.children, Normalized(e).0.children)
    ensures AttrText(Normalized(e).0.attrs, "available") in {"true", "false"}
    ensures CleanIdAttr(Normalized(e).0.attrs)
    ensures RequiredFieldsPresent(Normalized(e).0, ByLocalName)
  {
    var e4 := WithOfferId(Cleaned(e), ByLocalName).0;
    assert Normalized(e).0 == Finished(e4, Picture(ByLocalName));
    assert CleanIdAttr(e4.attrs);
    FinishedAttrs(e4, Picture(ByLocalName));
    CleanedKeepsPictures(e);
    KeepFirstFilter(e4.children, Of(Picture(ByLocalName)), MAX_PICTURES);
  }

  // ---------------------------------------------------------------------------
  // Repricing in the offer loop of generate

  /**
    The offer after the pricing updates of `generate`'s loop, whether the price changed, and
    how many other changes (old price, availability) were counted. Without a record the
    values written are empty, so price and old price are left alone, and availability is
    coerced from the offer's own.
   */
  function Repriced(e: Element, record: Option<Record>): (Element, bool, nat) {
    var (e1, priceChanged) := WithChildSet(e, ByLocalName, "price", if record.Some? then record.value.price else "");
    var (e2, oldPriceChanged) := WithChildSet(e1, ByLocalName, "old_price", if record.Some? then record.value.oldPrice else "");
    var counted := if oldPriceChanged then 1 else 0;
    if record.Some? then
      var (e3, availableChanged) := WithAvailable(e2, record.value.available);
      (e3, priceChanged, counted + (if availableChanged then 1 else 0))
    else
      (WithAvailable(e2, ExtractAvailable(e2)).0, priceChanged, counted)
  }

  /** An offer without a record keeps its children, so its price and old price, and counts no change. */
  lemma RepricedUnmatched(e: Element)
    ensures Repriced(e, None).0.children == e.children
    ensures AttrText(Repriced(e, None).0.attrs, "available") == CoerceAvailable(ExtractAvailable(e))
    ensures !Repriced(e, None).1 && Repriced(e, None).2 == 0
  {
  }

  /**
    An offer with a record reads back the record's price and old price when they are
    non-empty (keeping its own otherwise) and has the record's coerced availability.
   */
  lemma RepricedMatched(e: Element, record: Record)
    ensures var r := Repriced(e, Some(record)).0;
            && (record.price != "" ==> ChildText(r, ByLocalName, "price") == Trim(record.price))
            && (record.price == "" ==> ChildText(r, ByLocalName, "price") == ChildText(e, ByLocalName, "price"))
            && (record.oldPrice != "" ==> ChildText(r, ByLocalName, "old_price") == Trim(record.oldPrice))
            && AttrText(r.attrs, "available") == CoerceAvailable(record.available)
  {
    var r := Repriced(e, Some(record)).0;
    CreatedTagsPlain();
    ChildSetTwice(e, ByLocalName, "price", record.price, "old_price", record.oldPrice, r);
  }

  /**
    With a record the price counts as changed exactly when the record has a price and the
    offer has no `price` child or a different one. One other change is counted when the
    record has an old price and the offer has no `old_price` child or a different one, and
    one more when the offer's availability differs from the record's coerced one.
   */
  lemma RepricedMatchedCounts(e: Element, record: Record)
    ensures Repriced(e, Some(record)).1 <==>
              record.price != "" && (!Has(e.children, ByLocalName, "price") || ChildText(e, ByLocalName, "price") != record.price)
    ensures Repriced(e, Some(record)).2 <= 2
    ensures Repriced(e, Some(record)).2 ==
              (if record.oldPrice != "" && (!Has(e.children, ByLocalName, "old_price") || ChildText(e, ByLocalName, "old_price") != record.oldPrice) then 1 else 0)
              + (if AttrText(e.attrs, "available") != CoerceAvailable(record.available) then 1 else 0)
  {
    var e1 := WithChildSet(e, ByLocalName, "price", record.price).0;
    CreatedTagsPlain();
    ChildSetOthers(e, ByLocalName, "price", record.price, "old_price");
    assert Has(e1.children, ByLocalName, "old_price") == Has(e.children, ByLocalName, "old_price") by {
      assert FirstNamed(e1.children, ByLocalName, "old_price") == FirstNamed(e.children, ByLocalName, "old_price");
    }
  }

  /** `set_or_create_child` of price and old price, then `set_available`, as the loop of `generate` calls them. */
  method Reprice(offer: Offer, record: Option<Record>) returns (priceChanged: bool, otherChanged: nat)
    modifies offer
    ensures (offer.Value(), priceChanged, otherChanged) == Repriced(old(offer.Value()), record)
  {
    priceChanged := SetOrCreateChild(offer, ByLocalName, "price", if record.Some? then record.value.price else "");
    var oldPriceChanged := SetOrCreateChild(offer, ByLocalName, "old_price", if record.Some? then record.value.oldPrice else "");
    otherChanged := if oldPriceChanged then 1 else 0;
    if record.Some? {
      var availableChanged := SetAvailable(offer, record.value.available);
      if availableChanged {
        otherChanged := otherChanged + 1;
      }
    } else {
      var _ := SetAvailable(offer, ExtractAvailable(offer.Value()));
    }
  }
}
