# maudau-feed in Dafny

A model of the three parts of the maudau-feed repository that decide what ends up in the
published marketplace feed:

- the one-shot feed generator (`scripts/generate_maudau_feed.py`);
- the scheduled update job (`update_maudau.py`);
- the Telegram webhook that lets one chat trigger feed rebuilds (`webhook/app.py`).

Both feed pipelines do the same things:

- They read a base YML feed and a secondary (Rozetka) feed.
- They index the secondary feed by offer identity (the "Артикул" param, else `vendorCode`, else the `id` attribute, case-folded). The first offer of each key wins.
- They walk the base feed's offers. An offer is dropped as **missing** when it has no pricing record and its vendor is not allow-listed. Otherwise it is repriced from its record and normalised:
  - a `name` is moved to `name_ru` with HTML stripped, and a `description` to `description_ru`, trimmed only;
  - old-price tags are consolidated into one `old_price`;
  - params are cleaned;
  - the id is reduced to `[A-Za-z0-9]`;
  - availability is coerced so that it reads, trimmed, as "true" or "false";
  - pictures are capped at 12.
- An offer is dropped as **invalid** when normalisation fails or a required field is empty.
- They stamp the root's `date` when it is blank, and synthesise a `categories` block when the shop has none.

The two pipelines differ in detail:

- how a child is found: local name versus exact tag (`Feed.Lookup`);
- whether a padded value is trimmed before it is written;
- which pictures the cap counts;
- whether duplicate params are dropped;
- how `name_ua`/`description_ua` are cleaned;
- when `name_ru` is created: the generator creates it only from a `name` whose stripped text is non-empty, the update job whenever `name` exists;
- whether an existing `description_ru` is trimmed: the update job trims it, the generator leaves it as it is.

The model keeps each pipeline's own behaviour.

Modules:

- `Wrappers` — `Option`.
- `Text` — Python's `strip()`, `casefold()`/`lower()`, the tag-stripping regex and the id filter.
- `Seqs` — generic list operations: first match, filter/reject, keep-first-n, de-duplication.
- `Feed` — the offer element:
  - a value `Element` with attributes and an ordered list of children, plus the `Offer` class whose fields the rewrites update in place;
  - the lookups and rewrites shared by both scripts.
- `Generator` and `UpdateJob` — each script's own `normalize_offer` steps and repricing.
- `Shop` — the document: the `Document` class, the date stamp and the categories block.
- `Merge` — the offer loop and its counters, for either pipeline.
- `Webhook` — the request handling of the webhook.

Methods that change an offer or the document are proved against value-level functions (`With…`, `Normalized`, `Repriced`, `Reconcile`). The lemmas state what the source promises about those functions.

## Model

| member | source | states |
|---|---|---|
| Text.Trim | scripts/generate_maudau_feed.py:33-34 | the result has no whitespace at either end and is no longer than the input |
| Text.TrimStartSuffix | scripts/generate_maudau_feed.py:33-34 | stripping the front leaves a suffix of the input, and everything dropped is whitespace |
| Text.TrimEndPrefix | scripts/generate_maudau_feed.py:33-34 | stripping the back leaves a prefix of the input, and everything dropped is whitespace |
| Text.TrimTrimmed | scripts/generate_maudau_feed.py:33-34 | text with no surrounding whitespace is returned unchanged |
| Text.NormalizeText | update_maudau.py:62-63 | `normalize_text` of an optional value: a missing value gives "", and the result is trimmed |
| Text.CaseFold | scripts/generate_maudau_feed.py:37-38 | case folding maps each character independently and keeps the length |
| Text.FoldCharFacts | scripts/generate_maudau_feed.py:37-38 | folding neither creates nor removes whitespace, and folding twice equals folding once |
| Text.NormalizeKey | update_maudau.py:66-67 | `normalize_key` has the length of the trimmed text and is itself trimmed |
| Text.CaseFoldTrimmed | scripts/generate_maudau_feed.py:37-38 | case folding keeps trimmed text trimmed, so no second strip is needed |
| Text.StripTags | scripts/generate_maudau_feed.py:155-156 | removing tags never lengthens the text or introduces a character |
| Text.StripHtml | scripts/generate_maudau_feed.py:155-156 | `strip_html` yields trimmed text |
| Text.StripTagsTagFree | scripts/generate_maudau_feed.py:155-156 | the text left after removing `<[^>]+>` matches contains no further match |
| Text.StripTagsTagFreeFixed | scripts/generate_maudau_feed.py:155-156 | text without a tag is left unchanged by tag removal |
| Text.TrimTagFree | scripts/generate_maudau_feed.py:155-156 | trimming tag-free text keeps it tag-free |
| Text.StripHtmlIdempotent | scripts/generate_maudau_feed.py:155-156 | `strip_html` output is tag-free, and applying `strip_html` again changes nothing |
| Text.CleanId | scripts/generate_maudau_feed.py:232-238 | the id filter keeps only `[A-Za-z0-9]`; the result is empty exactly when the input has no such character; a clean input is kept as is |
| Text.CleanIdAppend | scripts/generate_maudau_feed.py:234 | cleaning a concatenation cleans each part separately |
| Text.CleanIdChar | scripts/generate_maudau_feed.py:234 | a single character is kept exactly when it is in `[A-Za-z0-9]` |
| Text.CleanIdIsFilter | scripts/generate_maudau_feed.py:234 | the id filter deletes exactly the characters outside `[A-Za-z0-9]` and keeps the rest in order ("AB-12 #3" becomes "AB123") |
| Feed.LocalNameSplit | scripts/generate_maudau_feed.py:41-44 | a tag without "}" is its own local name; otherwise the local name is what follows the first "}" |
| Feed.ChildTextIsFirst | scripts/generate_maudau_feed.py:47-51 | `child_text` is the trimmed text of the first child with the name, and "" when there is none |
| Feed.FindParamValue | scripts/generate_maudau_feed.py:61-70 | the value of the first param whose case-folded name matches and whose text is non-empty; "" exactly when no param qualifies |
| Feed.ResolveOfferIdRaw | scripts/generate_maudau_feed.py:73-82 | the offer's identity: the "Артикул" param if set, else `vendorCode`, else the `id` attribute, trimmed |
| Feed.ResolveOfferIdKey | scripts/generate_maudau_feed.py:85-86 | the identity key is the case-folded raw identity, and is empty exactly when the raw identity is |
| Feed.FirstChildText | scripts/generate_maudau_feed.py:97-102 | `extract_old_price`: the text of the first tag in priority order whose child text is non-empty; "" when none is |
| Feed.FirstKeyWins | scripts/generate_maudau_feed.py:137-145 | the indexing loop: empty keys are never inserted, and each key maps to the entry of its first occurrence |
| Feed.BuildIndex | scripts/generate_maudau_feed.py:133-146 | `build_rozetka_index`: every key is a non-empty offer key, and the first offer of each key supplies its price, old price and availability |
| Feed.Offer.constructor | scripts/generate_maudau_feed.py:339 | an offer object holds the element it is built from |
| Feed.CoerceAvailable | scripts/generate_maudau_feed.py:124-126 | the coerced value is "true" or "false", and is "true" exactly when the trimmed input is "true" |
| Feed.WithAvailable | scripts/generate_maudau_feed.py:123-130 | `set_available`: afterwards `available` reads as the coerced value; a change is reported exactly when the old value differed, and only that attribute is written |
| Feed.SetAvailableSettles | scripts/generate_maudau_feed.py:123-130 | a second `set_available` with the same value, or with the offer's own availability, reports no change |
| Feed.SetAvailable | scripts/generate_maudau_feed.py:123-130 | the method updates the offer in place as `WithAvailable` describes and returns its change flag |
| Feed.WithChildSet | scripts/generate_maudau_feed.py:109-120 | `set_or_create_child`: an empty value changes nothing; a change is reported exactly when the child is missing or holds different text; a child is appended, last, only when missing; otherwise only the first child of that name is rewritten, to the value, and every other child is untouched |
| Feed.ChildSetReadsBack | scripts/generate_maudau_feed.py:109-120 | after setting a non-empty value, `child_text` of that tag reads the value back, trimmed |
| Feed.ChildSetOthers | scripts/generate_maudau_feed.py:109-120 | setting one tag changes neither the first child nor the `child_text` of any other name |
| Feed.ChildSetTwice | scripts/generate_maudau_feed.py:350-353 | after `set_or_create_child` of two different tags in turn, each reads back its trimmed value when it was given one, and the first keeps its old text when it was not |
| Feed.SetOrCreateChild | scripts/generate_maudau_feed.py:109-120 | the method updates the offer in place as `WithChildSet` describes |
| Feed.CapPictures | scripts/generate_maudau_feed.py:271-273 | the picture-cap loop removes every picture after the first twelve and keeps everything else in order |
| Feed.FinishedAttrs | scripts/generate_maudau_feed.py:267-273 | after the availability and picture steps, `available` reads, trimmed, as "true" or "false", and a clean `id` stays clean |
| Feed.FirstNamedRemove | scripts/generate_maudau_feed.py:174-175 | removing the first child of one name leaves the first child of every other name unchanged |
| Feed.FilterNamedRemove | scripts/generate_maudau_feed.py:186-187 | removing the first child of a name removes exactly that child from the children of that name, and none of another name |
| Feed.PriorityValue | scripts/generate_maudau_feed.py:205-210 | the chosen old price is the first filled value in `OLD_PRICE_TAGS` order, and "" when no tag has a value |
| Feed.ValuesByTagSound | scripts/generate_maudau_feed.py:194-200 | every value collected under a tag is the first non-empty text among that tag's children |
| Feed.ValuesByTagComplete | scripts/generate_maudau_feed.py:194-200 | every old-price tag with a non-empty child gets a collected value |
| Feed.CollectOldPrices | scripts/generate_maudau_feed.py:194-203 | the collection loop records the first value per tag, and keeps exactly the children that are not old-price tags |
| Feed.PickByPriority | scripts/generate_maudau_feed.py:205-210 | the priority loop returns the first non-empty collected value in tag order |
| Feed.WithOldPriceConsolidated | scripts/generate_maudau_feed.py:190-214 | `normalize_old_price_tag`: all old-price children are removed; the other children are kept in order; a single `old_price` holding the priority value is appended, as the last child, exactly when that value is non-empty |
| Feed.NormalizeOldPriceTag | scripts/generate_maudau_feed.py:190-214 | the method rewrites the offer in place as `WithOldPriceConsolidated` describes |
| Feed.WithOfferId | scripts/generate_maudau_feed.py:232-238 | `normalize_offer_id` succeeds exactly when the raw identity has an `[A-Za-z0-9]` character; it then sets `id` to the cleaned identity, which is non-empty and clean; on failure the offer is unchanged |
| Feed.NormalizeOfferId | scripts/generate_maudau_feed.py:232-238 | the method updates the offer in place as `WithOfferId` describes |
| Feed.HasRequiredFields | scripts/generate_maudau_feed.py:241-257 | `has_required_fields` is true exactly when the six required texts are non-empty and at least one picture has text |
| Seqs.KeepFirstLoop | update_maudau.py:228-230 | the capping loop computes `KeepFirst`: the first `limit` matching elements and every non-matching element, in order |
| Seqs.CountLoop | scripts/generate_maudau_feed.py:253-257 | the counting loop returns the number of matching elements |
| Generator.NormalizeRequiredTexts | scripts/generate_maudau_feed.py:159-187 | the method rewrites the offer in place as `WithRequiredTexts` describes |
| Generator.NormalizeNames | scripts/generate_maudau_feed.py:159-175 | the name half, in place |
| Generator.NormalizeDescriptions | scripts/generate_maudau_feed.py:177-187 | the description half, in place |
| Generator.NamesFound | scripts/generate_maudau_feed.py:159-175 | after the name half: `name_ru` is the old one HTML-stripped, or a new one carrying the stripped `name` when there was none and that value is non-empty; `name_ua` is HTML-stripped; every other name finds what it found before |
| Generator.NamesRemoved | scripts/generate_maudau_feed.py:174-175 | the name half removes exactly the first `name` child |
| Generator.DescriptionsFound | scripts/generate_maudau_feed.py:177-187 | a `description_ru` is created from a non-empty trimmed `description` only when there is none; other names are unaffected |
| Generator.DescriptionsRemoved | scripts/generate_maudau_feed.py:186-187 | the description half removes exactly the first `description` child |
| Generator.NamesKeepOthers | scripts/generate_maudau_feed.py:159-175 | children whose names the name half does not touch are kept, in order |
| Generator.DescriptionsKeepOthers | scripts/generate_maudau_feed.py:177-187 | children whose names the description half does not touch are kept, in order |
| Generator.RequiredTextsFound | scripts/generate_maudau_feed.py:159-187 | `normalize_required_texts` as a whole: what each name other than `name`/`description` finds afterwards |
| Generator.RequiredTextsRemoved | scripts/generate_maudau_feed.py:159-187 | `normalize_required_texts` removes exactly the first `name` and the first `description`, and no other child of those names |
| Generator.RequiredNamesClean | scripts/generate_maudau_feed.py:164-172 | afterwards `name_ru` and `name_ua` carry tag-free, trimmed text; a `name_ru` exists exactly when there was one or `name` gave a non-empty value |
| Generator.NamesAsWrittenAgrees | scripts/generate_maudau_feed.py:164-172 | the code as written aborts exactly when the first `name`, `name_ru` or `name_ua` has no text; otherwise it agrees with the corrected model |
| Generator.EmptyNameAborts | scripts/generate_maudau_feed.py:164 | `<name/>` aborts the code as written, where the corrected model drops the empty `name` |
| Generator.RenamedFacts | scripts/generate_maudau_feed.py:222-228 | renaming a param to its stripped name keeps it a param, keeps its key and whether it is usable, and stores the cleaned name |
| Generator.CleanedParamsKeepOthers | scripts/generate_maudau_feed.py:217-229 | `cleanup_params` leaves every non-param child in place and order |
| Generator.CleanedParamsFirstWins | scripts/generate_maudau_feed.py:217-229 | the first usable param of each case-folded name survives, renamed; every surviving param is one of those |
| Seqs.DedupFilterOrder | scripts/generate_maudau_feed.py:218-229 | first-key-wins de-duplication keeps, in original order, exactly the first usable element of every key, transformed |
| Generator.CleanedParamsInOrder | scripts/generate_maudau_feed.py:217-229 | the surviving params are the first usable param of each case-folded name, renamed, in document order |
| Generator.CleanedParamsDistinct | scripts/generate_maudau_feed.py:224-229 | no two surviving params share a case-folded name |
| Generator.CleanedParamsNamed | scripts/generate_maudau_feed.py:225-228 | every surviving param has a non-empty name and value, and carries its cleaned name |
| Generator.CleanupParams | scripts/generate_maudau_feed.py:217-229 | the method rewrites the offer in place as `CleanedParams` describes |
| Generator.KeptParams | scripts/generate_maudau_feed.py:218-229 | the loop with its `seen_names` set computes `CleanedParams` |
| Generator.Normalized | scripts/generate_maudau_feed.py:260-275 | an offer that `normalize_offer` accepts has all required fields |
| Generator.NormalizeOffer | scripts/generate_maudau_feed.py:260-275 | the method rewrites the offer in place as `Normalized` describes and returns its verdict |
| Generator.CleanedKeepsPictures | scripts/generate_maudau_feed.py:261-263 | the text, old-price and param steps keep the pictures, in order |
| Generator.NormalizedKept | scripts/generate_maudau_feed.py:260-275 | an accepted offer keeps its first twelve pictures in order and no others; `available` reads, trimmed, as "true"/"false"; `id` is non-empty over `[A-Za-z0-9]`; required fields are present |
| Generator.RepricedUnmatched | scripts/generate_maudau_feed.py:350-357 | an offer without a record keeps its children, gets its own availability coerced, and counts no change |
| Generator.RepricedMatched | scripts/generate_maudau_feed.py:350-355 | an offer with a record reads back the record's non-empty price and old price, and has its coerced availability |
| Generator.RepricedMatchedCounts | scripts/generate_maudau_feed.py:350-355 | the price counts as changed exactly when the record has a price that differs from the offer's or the offer had none; the other changes are one for an old price that is non-empty and differs from the offer's or is missing, plus one for an availability that differs from the record's coerced one |
| Generator.Reprice | scripts/generate_maudau_feed.py:350-357 | the method reprices the offer in place as `Repriced` describes |
| UpdateJob.NormalizeNameDescription | update_maudau.py:136-165 | the method rewrites the offer in place as `WithNameDescription` describes |
| UpdateJob.NormalizeNames | update_maudau.py:137-150 | the name half, in place |
| UpdateJob.NormalizeDescriptions | update_maudau.py:152-165 | the description half, in place |
| UpdateJob.NameRuCreatedFound | update_maudau.py:141-143 | a `name_ru` carrying the trimmed `name` text is appended only when `name` exists and `name_ru` does not |
| UpdateJob.NamesFound | update_maudau.py:137-150 | after the name half, `name_ru` is the old one HTML-stripped, or, when there was none but a `name`, a new one with that name's stripped text even if empty; `name_ua` is HTML-stripped; `name_ru` exists exactly when it did or a `name` did; other names are unaffected |
| UpdateJob.NamesRemoved | update_maudau.py:144-145 | the name half removes exactly the first `name` child |
| UpdateJob.DescriptionRuCreatedFound | update_maudau.py:156-158 | a `description_ru` is appended only when `description` exists and `description_ru` does not |
| UpdateJob.DescriptionsFound | update_maudau.py:152-165 | after the description half, `description_ru`/`description_ua` are trimmed; other names are unaffected |
| UpdateJob.DescriptionsRemoved | update_maudau.py:159-160 | the description half removes exactly the first `description` child |
| UpdateJob.NamesKeepOthers | update_maudau.py:137-150 | children whose names the name half does not touch are kept, in order |
| UpdateJob.DescriptionsKeepOthers | update_maudau.py:152-165 | children whose names the description half does not touch are kept, in order |
| UpdateJob.RenamedSettled | update_maudau.py:191-196 | a renamed param keeps its name and value, stores the cleaned name, and renaming twice equals renaming once |
| UpdateJob.CleanedParamsKeepOthers | update_maudau.py:189-196 | `cleanup_params` leaves every non-param child in place and order |
| UpdateJob.CleanedParamsRenamed | update_maudau.py:189-196 | the surviving params are exactly the usable ones, renamed, in order; duplicates are not dropped |
| UpdateJob.CleanedParamsIdempotent | update_maudau.py:189-196 | running `cleanup_params` twice equals running it once |
| UpdateJob.CleanupParams | update_maudau.py:189-196 | the method rewrites the offer in place as `CleanedParams` describes |
| UpdateJob.KeptParams | update_maudau.py:190-196 | the loop computes `CleanedParams` |
| UpdateJob.CapKeepsEmptyPictures | update_maudau.py:228-230 | the cap keeps the first twelve non-empty pictures and never removes an empty one |
| UpdateJob.Normalized | update_maudau.py:218-232 | an offer that `normalize_offer` accepts has all required fields |
| UpdateJob.NormalizeOffer | update_maudau.py:218-232 | the method rewrites the offer in place as `Normalized` describes and returns its verdict |
| UpdateJob.CleanedKeepsPictures | update_maudau.py:219-221 | the text, old-price and param steps keep the pictures, in order |
| UpdateJob.NormalizedKept | update_maudau.py:218-232 | an accepted offer keeps its first twelve non-empty pictures in order and every empty one; `available` reads, trimmed, as "true"/"false"; `id` is clean; required fields are present |
| UpdateJob.SetOrCreateSettles | update_maudau.py:111-123 | `set_or_create` reads back the trimmed value, and a second identical call reports no change |
| UpdateJob.SetOrCreate | update_maudau.py:111-123 | the method updates the offer in place as `WithChildSetTrimmed` describes |
| UpdateJob.RepricedUnmatched | update_maudau.py:315-316 | an offer without a record keeps its children, gets its own availability coerced, and counts no change |
| UpdateJob.RepricedMatched | update_maudau.py:308-314 | an offer with a record reads back the record's non-empty trimmed price and old price, and has its coerced availability |
| UpdateJob.RepricedMatchedCounts | update_maudau.py:308-314 | the price counts as changed exactly when the trimmed record price is non-empty and differs from the offer's or the offer had none; the other changes are one for a trimmed old price that is non-empty and differs from the offer's or is missing, plus one for an availability that differs from the record's coerced one |
| UpdateJob.Reprice | update_maudau.py:308-316 | the method reprices the offer in place as `Repriced` describes |
| UpdateJob.RepriceFromRecord | update_maudau.py:308-314 | the matched branch, in place |
| Shop.Document.constructor | update_maudau.py:286-287 | a document object holds the root attributes, shop, categories and offers it is built from |
| Shop.RootDatedFacts | scripts/generate_maudau_feed.py:278-282 | a non-blank date is kept as is; a blank one becomes the stamp; other attributes are untouched; stamping again changes nothing |
| Shop.EnsureRootDate | update_maudau.py:235-237 | the method stamps the root in place as `RootDated` describes and changes nothing else |
| Shop.FirstSeenFacts | scripts/generate_maudau_feed.py:296-305 | the synthesised ids are exactly the non-empty ids, each once, in order of first appearance |
| Shop.CategoriesCover | scripts/generate_maudau_feed.py:285-307 | every offer's non-empty category is listed, every listed category belongs to some offer with id equal to its text, and no id is listed twice |
| Shop.CollectCategories | scripts/generate_maudau_feed.py:296-305 | the loop with its `known_ids` set computes `Categories` |
| Shop.EnsureCategories | scripts/generate_maudau_feed.py:285-307 | a missing shop is created; an existing categories block is kept unchanged; otherwise the block is synthesised from the offers |
| Merge.Normalize | scripts/generate_maudau_feed.py:359-362 | an offer either pipeline accepts has all required fields |
| Merge.MissingIff | scripts/generate_maudau_feed.py:345-348 | an offer is dropped as missing exactly when its key has no record and its vendor is not allow-listed; it is then untouched; a kept offer has all required fields |
| Merge.ChangesCounted | scripts/generate_maudau_feed.py:350-357 | an offer without a record counts no change, and any offer counts at most two other changes |
| Merge.TallyBalanced | scripts/generate_maudau_feed.py:331-373 | `total` counts every offer, and equals `kept` plus `removed_missing` plus `removed_invalid`; `kept` is the number of surviving offers |
| Merge.ReconcileOffer | update_maudau.py:297-323 | one iteration of the offer loop computes `Reconcile` |
| Merge.Tally1 | scripts/generate_maudau_feed.py:340-364 | one iteration's counter updates and surviving-offer list, as `Count` describes |
| Merge.ReconcileAll | scripts/generate_maudau_feed.py:339-364 | the offer loop yields the surviving offers and the counters of all outcomes |
| Merge.MergeOffers | update_maudau.py:296-323 | the loop replaces the document's offers with the survivors and returns the counters; nothing else changes |
| Merge.SurvivorsComplete | scripts/generate_maudau_feed.py:359-364 | every surviving offer has all required fields |
| Merge.Run | update_maudau.py:296-326 | the whole pass: survivors and counters, then the date stamp, then the categories block built from the survivors |
| Webhook.FirstToken | webhook/app.py:145 | `split()[0]`: the longest whitespace-free prefix |
| Webhook.TrimEmpty | webhook/app.py:143 | stripped text is empty exactly when the text is all whitespace |
| Webhook.CommandTokenShape | webhook/app.py:144-148 | the command word is the longest prefix without whitespace and, for a slash command, without "@"; a slash command keeps its slash |
| Webhook.NormalizeCmdShape | webhook/app.py:142-149 | `normalize_cmd` is that prefix of the lower-cased, stripped text |
| Webhook.NormalizeCmdBlank | webhook/app.py:142-149 | `normalize_cmd` returns "" exactly for blank text |
| Webhook.IsAllowedChat | webhook/app.py:136-139 | every chat is allowed when the configured id is blank; otherwise exactly the configured, stripped id |
| Webhook.MissingEnv | webhook/app.py:45-51 | each token variable is listed exactly when it is empty, the bot token first |
| Webhook.DispatchRefusal | webhook/app.py:92-99 | a dispatch proceeds exactly when both tokens are set and the key names a workflow feed; otherwise it reports the missing variables or "Неизвестная команда" |
| Webhook.DirectRefusal | webhook/app.py:122-125 | a direct trigger proceeds exactly for a direct-feed key; otherwise it reports "Неизвестная команда" |
| Webhook.SecretAccepted | webhook/app.py:165-167 | with no secret configured every request passes; otherwise exactly those whose header equals the secret |
| Webhook.HealthOf | webhook/app.py:152-157 | the status is "ok" exactly when both tokens are set; otherwise "degraded" lists the missing variables |
| Webhook.HandleMessage | webhook/app.py:171-183 | no chat: nothing; a chat that is not allowed: "Нет доступа. chat_id=…"; the controls are sent exactly to an allowed chat whose command is one of the six control commands; any other text from an allowed chat gets nothing |
| Webhook.BlankMessageSilent | webhook/app.py:173-183 | a blank message never brings up the controls |
| Webhook.RouteCallback | webhook/app.py:197-205 | data starting with neither "run:" nor "run_direct:" is unknown; otherwise the part after the first ":" is the feed key for the workflow or the direct trigger |
| Webhook.HandleCallback | webhook/app.py:185-208 | no callback id: nothing; no chat or a chat not allowed: "Нет доступа"; for an allowed chat, the run that the stripped data routes to, or "Неизвестная команда" when it routes nowhere |
| Webhook.RunOnlyForKnownFeeds | webhook/app.py:185-205 | a network call is reached only for a configured feed key, named by the stripped callback data |

## Left out

- Network and file I/O is not modelled:
  - downloading feeds, with their retries;
  - XML parsing and serialisation;
  - `indent_tree` and pretty-printing;
  - the GitHub dispatch and direct-trigger HTTP calls, and the Telegram API calls;
  - the FastAPI plumbing and reading environment variables.

  Instead the model works on parsed elements, and environment values are parameters.
- The texts reported after a network call, and the final report, are not modelled, because they depend on the HTTP responses.
- The clock is not modelled: `datetime.now()` is a parameter already formatted as `%Y-%m-%d %H:%M` (`Shop.IsStamp`).
- Which elements count as offers is simplified:
  - The generator walks every `.//offer` and removes each through a parent map.
  - The update job walks `//offer`.
  - The model takes the offers to be the children of the offers block, and a removed offer disappears from that list.
  - The generator's `.//shop` versus the update job's `shop` lookup is not distinguished.
- Shop.EnsureCategories: `shop.insert(0, categories)` puts the block first among the shop's children; the model records the block, not its position.
- XML comments and processing instructions among an offer's children are not modelled: every child is an element with a tag, attributes and optional text.
- Text.CaseFold: folds only ASCII A-Z and Cyrillic U+0400..U+042F. Python's full Unicode `casefold()`/`lower()` tables are not reproduced; the two functions agree on these ranges.
- Text.StripTags: models the `<[^>]+>` substitution as a left-to-right scan; regex engine details beyond that pattern are not modelled.
- The Telegram update JSON is taken as already decoded into chat id, text, callback id and data strings; a missing field is "".
- `telegram_feed_control.py` and `set_telegram_webhook.py` are not part of this model.

## Findings

| source | as written | input that shows it | evidently intended | confidence | as-written member | corrected member |
|---|---|---|---|---|---|---|
| scripts/generate_maudau_feed.py:164-172 | `strip_html` is applied to the raw `.text` of `name`, `name_ru` and `name_ua`; for a child without text this is `strip_html(None)`, which raises `TypeError` and aborts the whole generation | an offer containing `<name/>` (or `<name_ru/>`, `<name_ua/>`) | treat missing text as "" (as `normalize_text` and the update job's `or ""` do), so an empty `name` is dropped and the offer goes on to validation | not executed | Generator.EmptyNameAborts | Generator.NamesFound |
