/**
 * The `/feed` handler: request validation, and the assembly of the
 * translated feed from the parsed source feed, field by field.
 */
module Proxy {
  import opened Options
  import opened Text
  import opened Translation

  const DefaultLang: string := "EN-GB"
  const MissingUrlMessage: string := "Please provide a 'url' query parameter."
  const MalformedFeedPrefix: string := "The provided URL does not point to a well-formed RSS feed. Error: "
  const InternalErrorMessage: string := "An internal error occurred while processing the feed."
  const UntitledFeed: string := "Untitled Feed"
  const NoTitle: string := "No Title"

  /** The value of `published_parsed` when the key is present: `None`, or a
      time tuple. */
  datatype ParsedTime = Null | TimeTuple(fields: seq<int>)

  /** The `feed` part of what `feedparser.parse` returns; a key the parser
      did not set is `None`. */
  datatype SourceChannel = SourceChannel(
    title: Option<string>,
    description: Option<string>,
    subtitle: Option<string>,
    link: Option<string>,
    id: Option<string>,
    language: Option<string>)

  /** One element of `entries`. */
  datatype SourceEntry = SourceEntry(
    title: Option<string>,
    description: Option<string>,
    summary: Option<string>,
    author: Option<string>,
    link: Option<string>,
    id: Option<string>,
    publishedParsed: Option<ParsedTime>)

  /** The result of `feedparser.parse`, with its `bozo` flag. */
  datatype ParsedFeed = ParsedFeed(
    bozo: bool,
    bozoException: string,
    channel: SourceChannel,
    entries: seq<SourceEntry>)

  /** The `requests.get` of the feed: any network or HTTP error, or the
      parsed body. */
  datatype FetchResult = FetchFailed | Fetched(parsed: ParsedFeed)

  /** One `fe` of the generated feed. */
  datatype Item = Item(
    title: string,
    description: string,
    author: Option<string>,
    link: string,
    guid: string,
    pubDate: Option<seq<int>>)

  /** The `fg` of the generated feed. */
  datatype Channel = Channel(
    title: string,
    description: string,
    link: string,
    id: string,
    language: Option<string>,
    items: seq<Item>)

  /** The handler's answer: 200 with the generated feed, 400 or 500 with a
      plain-text message. */
  datatype Response = Ok(feed: Channel) | BadRequest(message: string) | ServerError(message: string)

  /** `request.args.get('lang', 'EN-GB').upper()`. */
  function TargetLang(lang: Option<string>): (r: string)
    ensures lang.Some? ==> r == Upper(lang.value)
    ensures lang.None? ==> r == DefaultLang
    ensures forall i :: 0 <= i < |r| ==> !('a' <= r[i] <= 'z')
  {
    var upper := Upper(lang.GetOr(DefaultLang));
    assert lang.None? ==> upper == DefaultLang by {
      if lang.None? {
        assert forall i :: 0 <= i < |DefaultLang| ==> !('a' <= DefaultLang[i] <= 'z');
      }
    }
    upper
  }

  /** Python's `d.get(a) or d.get(b, '')`: the first value when it is a
      non-empty string, otherwise the second or the empty string. */
  function FirstNonEmpty(a: Option<string>, b: Option<string>): string {
    if a.Some? && a.value != [] then a.value else b.GetOr([])
  }

  /** `d.get('id', d.get('link', ''))`. */
  function IdOrLink(id: Option<string>, link: Option<string>): string {
    id.GetOr(link.GetOr([]))
  }

  /** `'published_parsed' in entry and entry.published_parsed`: present and
      a non-empty tuple. */
  function PubDate(p: Option<ParsedTime>): Option<seq<int>> {
    if p.Some? && p.value.TimeTuple? && p.value.fields != [] then Some(p.value.fields) else None
  }

  /** The cache keys of the text fields, after HTML stripping by `getText`
      (`BeautifulSoup(html).get_text(separator, strip=True)`). */
  function ChannelTitleQuery(c: SourceChannel, lang: string, getText: (string, string) -> string): Query {
    Query(getText(c.title.GetOr(UntitledFeed), []), lang)
  }

  function ChannelDescriptionQuery(c: SourceChannel, lang: string, getText: (string, string) -> string): Query {
    Query(getText(FirstNonEmpty(c.description, c.subtitle), []), lang)
  }

  function ItemTitleQuery(e: SourceEntry, lang: string, getText: (string, string) -> string): Query {
    Query(getText(e.title.GetOr(NoTitle), []), lang)
  }

  function ItemDescriptionQuery(e: SourceEntry, lang: string, getText: (string, string) -> string): Query {
    Query(getText(FirstNonEmpty(e.description, e.summary), " "), lang)
  }

  function AuthorQuery(author: string, lang: string, getText: (string, string) -> string): Query {
    Query(getText(author, []), lang)
  }

  /** The translation of `q` as the cache holds it. */
  function Lookup(m: map<Query, string>, q: Query): string {
    if q in m then m[q] else q.text
  }

  /** A translated description, or the translated title when that is blank. */
  function OrTitle(description: string, title: string): string {
    if Strip(description) == [] then title else description
  }

  /** The getTranslation calls for one entry's fields, in the order the
      loop body makes them: title, description, and the author when there
      is one. */
  function ItemCalls(e: SourceEntry, lang: string, getText: (string, string) -> string): seq<Query> {
    [ItemTitleQuery(e, lang, getText)] + [ItemDescriptionQuery(e, lang, getText)]
    + (if e.author.Some? then [AuthorQuery(e.author.value, lang, getText)] else [])
  }

  /** The calls for a list of entries, entry after entry in source order. */
  function EntriesCalls(es: seq<SourceEntry>, lang: string, getText: (string, string) -> string): seq<Query> {
    if es == [] then [] else EntriesCalls(es[..|es| - 1], lang, getText) + ItemCalls(es[|es| - 1], lang, getText)
  }

  /** The calls for a feed: the channel's title and description, then those
      of its entries. */
  function FeedCalls(p: ParsedFeed, lang: string, getText: (string, string) -> string): seq<Query> {
    [ChannelTitleQuery(p.channel, lang, getText)] + [ChannelDescriptionQuery(p.channel, lang, getText)]
    + EntriesCalls(p.entries, lang, getText)
  }

  /** The cache holds every key an entry needs. */
  ghost predicate ItemCovered(m: map<Query, string>, e: SourceEntry, lang: string, getText: (string, string) -> string) {
    forall q :: q in ItemCalls(e, lang, getText) ==> q in m
  }

  /** The cache holds every key a feed needs. */
  ghost predicate FeedCovered(m: map<Query, string>, p: ParsedFeed, lang: string, getText: (string, string) -> string) {
    forall q :: q in FeedCalls(p, lang, getText) ==> q in m
  }

  /** Every entry's calls are among the calls of the list. */
  lemma {:induction false} EntriesCallsAt(es: seq<SourceEntry>, lang: string, getText: (string, string) -> string)
    ensures forall i, q :: 0 <= i < |es| && q in ItemCalls(es[i], lang, getText) ==> q in EntriesCalls(es, lang, getText)
  {
    if es != [] {
      var init := es[..|es| - 1];
      EntriesCallsAt(init, lang, getText);
      forall i, q | 0 <= i < |es| - 1 && q in ItemCalls(es[i], lang, getText)
        ensures q in EntriesCalls(es, lang, getText)
      {
        assert es[i] == init[i];
      }
    }
  }

  /** The `fe` built for one source entry from the translations in `m`. */
  function BuildItem(e: SourceEntry, lang: string, getText: (string, string) -> string, m: map<Query, string>): (item: Item)
    ensures item.description == item.title || Strip(item.description) != []
    ensures item.author.Some? <==> e.author.Some?
  {
    var title := Lookup(m, ItemTitleQuery(e, lang, getText));
    var description := Lookup(m, ItemDescriptionQuery(e, lang, getText));
    Item(
      title,
      OrTitle(description, title),
      if e.author.Some? then Some(Lookup(m, AuthorQuery(e.author.value, lang, getText))) else None,
      e.link.GetOr([]),
      IdOrLink(e.id, e.link),
      PubDate(e.publishedParsed))
  }

  /** The items of the generated feed. `fg.add_entry()` prepends by default,
      so the item of the last entry comes first. */
  function BuildItems(es: seq<SourceEntry>, lang: string, getText: (string, string) -> string, m: map<Query, string>): (items: seq<Item>)
    ensures |items| == |es|
  {
    if es == [] then [] else [BuildItem(es[|es| - 1], lang, getText, m)] + BuildItems(es[..|es| - 1], lang, getText, m)
  }

  /** The `fg` built for a parsed feed from the translations in `m`. */
  function BuildChannel(p: ParsedFeed, lang: string, getText: (string, string) -> string, m: map<Query, string>): (c: Channel)
    ensures c.description == c.title || Strip(c.description) != []
    ensures |c.items| == |p.entries|
  {
    var c := p.channel;
    var title := Lookup(m, ChannelTitleQuery(c, lang, getText));
    var description := Lookup(m, ChannelDescriptionQuery(c, lang, getText));
    Channel(
      title,
      OrTitle(description, title),
      c.link.GetOr([]),
      IdOrLink(c.id, c.link),
      c.language,
      BuildItems(p.entries, lang, getText, m))
  }

  /** The response of the handler, given the translations in `m`. */
  function Respond(url: Option<string>, lang: Option<string>, fetched: FetchResult,
                   getText: (string, string) -> string, m: map<Query, string>): Response
  {
    if url.None? || url.value == [] then
      BadRequest(MissingUrlMessage)
    else match fetched
      case FetchFailed => ServerError(InternalErrorMessage)
      case Fetched(p) =>
        if p.bozo then BadRequest(MalformedFeedPrefix + p.bozoException)
        else Ok(BuildChannel(p, TargetLang(lang), getText, m))
  }

  /** The generated feed has one item per source entry, in reverse source
      order: entry `i` of `n` gives item `n - 1 - i`. */
  lemma {:induction false} BuildItemsAt(es: seq<SourceEntry>, lang: string, getText: (string, string) -> string, m: map<Query, string>)
    ensures |BuildItems(es, lang, getText, m)| == |es|
    ensures forall i :: 0 <= i < |es| ==> BuildItems(es, lang, getText, m)[|es| - 1 - i] == BuildItem(es[i], lang, getText, m)
  {
    if es != [] {
      var init := es[..|es| - 1];
      BuildItemsAt(init, lang, getText, m);
      var items := BuildItems(es, lang, getText, m);
      forall i | 0 <= i < |es|
        ensures items[|es| - 1 - i] == BuildItem(es[i], lang, getText, m)
      {
        if i < |es| - 1 {
          assert items[|es| - 1 - i] == BuildItems(init, lang, getText, m)[|init| - 1 - i];
          assert init[i] == es[i];
        }
      }
    }
  }

  /** The texts the channel's fields are translated from: a missing title
      is "Untitled Feed"; a missing or empty description falls back to the
      subtitle, then to the empty string; markup is stripped with no
      separator; the target language is the request's. */
  lemma ChannelSourceTexts(c: SourceChannel, lang: string, getText: (string, string) -> string)
    ensures ChannelTitleQuery(c, lang, getText).targetLang == lang
    ensures ChannelDescriptionQuery(c, lang, getText).targetLang == lang
    ensures c.title.None? ==> ChannelTitleQuery(c, lang, getText).text == getText(UntitledFeed, [])
    ensures c.title.Some? ==> ChannelTitleQuery(c, lang, getText).text == getText(c.title.value, [])
    ensures c.description.Some? && c.description.value != [] ==>
      ChannelDescriptionQuery(c, lang, getText).text == getText(c.description.value, [])
    ensures (c.description.None? || c.description.value == []) && c.subtitle.Some? ==>
      ChannelDescriptionQuery(c, lang, getText).text == getText(c.subtitle.value, [])
    ensures (c.description.None? || c.description.value == []) && c.subtitle.None? ==>
      ChannelDescriptionQuery(c, lang, getText).text == getText([], [])
  {
  }

  /** The texts an entry's fields are translated from: a missing title is
      "No Title"; a missing or empty description falls back to the summary,
      then to the empty string, and its markup is stripped with one space
      between text nodes; the title and author are stripped with no
      separator. */
  lemma EntrySourceTexts(e: SourceEntry, lang: string, getText: (string, string) -> string)
    ensures ItemTitleQuery(e, lang, getText).targetLang == lang
    ensures ItemDescriptionQuery(e, lang, getText).targetLang == lang
    ensures e.title.None? ==> ItemTitleQuery(e, lang, getText).text == getText(NoTitle, [])
    ensures e.title.Some? ==> ItemTitleQuery(e, lang, getText).text == getText(e.title.value, [])
    ensures e.description.Some? && e.description.value != [] ==>
      ItemDescriptionQuery(e, lang, getText).text == getText(e.description.value, " ")
    ensures (e.description.None? || e.description.value == []) && e.summary.Some? ==>
      ItemDescriptionQuery(e, lang, getText).text == getText(e.summary.value, " ")
    ensures (e.description.None? || e.description.value == []) && e.summary.None? ==>
      ItemDescriptionQuery(e, lang, getText).text == getText([], " ")
    ensures e.author.Some? ==> AuthorQuery(e.author.value, lang, getText) == Query(getText(e.author.value, []), lang)
  {
  }

  /** The handler rejects a missing or empty `url` with 400 before anything
      else, turns a failed fetch into 500 and a malformed feed into 400 that
      names the parser's error, and answers 200 otherwise. */
  lemma RespondStatus(url: Option<string>, lang: Option<string>, fetched: FetchResult,
                      getText: (string, string) -> string, m: map<Query, string>)
    ensures var r := Respond(url, lang, fetched, getText, m);
      && (url.None? || url.value == [] ==> r == BadRequest(MissingUrlMessage))
      && (r.ServerError? <==> url.Some? && url.value != [] && fetched.FetchFailed?)
      && (r.Ok? <==> url.Some? && url.value != [] && fetched.Fetched? && !fetched.parsed.bozo)
      && (r.Ok? ==> r.feed == BuildChannel(fetched.parsed, TargetLang(lang), getText, m))
      && (url.Some? && url.value != [] && fetched.Fetched? && fetched.parsed.bozo ==>
            r == BadRequest(MalformedFeedPrefix + fetched.parsed.bozoException))
  {
  }

  /** The channel id and every item's guid is the source `id`, or the link
      when the source has no `id`; links default to the empty string; the
      language is copied when the source has one. */
  lemma GuidFallsBackToLink(p: ParsedFeed, lang: string, getText: (string, string) -> string, m: map<Query, string>)
    ensures var c := BuildChannel(p, lang, getText, m);
      && c.link == p.channel.link.GetOr([])
      && c.language == p.channel.language
      && (p.channel.id.Some? ==> c.id == p.channel.id.value)
      && (p.channel.id.None? ==> c.id == c.link)
      && forall i :: 0 <= i < |p.entries| ==>
           var item := c.items[|p.entries| - 1 - i];
           && item.link == p.entries[i].link.GetOr([])
           && (p.entries[i].id.Some? ==> item.guid == p.entries[i].id.value)
           && (p.entries[i].id.None? ==> item.guid == item.link)
  {
    BuildItemsAt(p.entries, lang, getText, m);
  }

  /** An item has an author exactly when its source entry has one, and it is
      the translation of the stripped author text. */
  lemma AuthorOnlyWhenPresent(p: ParsedFeed, lang: string, getText: (string, string) -> string, m: map<Query, string>)
    ensures var c := BuildChannel(p, lang, getText, m);
      forall i :: 0 <= i < |p.entries| ==>
        var item := c.items[|p.entries| - 1 - i];
        && (item.author.Some? <==> p.entries[i].author.Some?)
        && (p.entries[i].author.Some? ==>
              item.author.value == Lookup(m, AuthorQuery(p.entries[i].author.value, lang, getText)))
  {
    BuildItemsAt(p.entries, lang, getText, m);
  }

  /** An item has a publication date exactly when `published_parsed` is
      present and a non-empty time tuple, and then it is that tuple. */
  lemma PubDateOnlyWhenParsed(p: ParsedFeed, lang: string, getText: (string, string) -> string, m: map<Query, string>)
    ensures var c := BuildChannel(p, lang, getText, m);
      forall i, f :: 0 <= i < |p.entries| ==>
        (c.items[|p.entries| - 1 - i].pubDate == Some(f) <==> p.entries[i].publishedParsed == Some(TimeTuple(f)) && f != [])
  {
    BuildItemsAt(p.entries, lang, getText, m);
  }

  /** The channel's and every item's description is the translated
      description, unless that is empty or whitespace only, in which case it
      is the translated title of the same channel or item. */
  lemma DescriptionFallsBackToTitle(p: ParsedFeed, lang: string, getText: (string, string) -> string, m: map<Query, string>)
    ensures var c := BuildChannel(p, lang, getText, m);
      var d := Lookup(m, ChannelDescriptionQuery(p.channel, lang, getText));
      && c.title == Lookup(m, ChannelTitleQuery(p.channel, lang, getText))
      && (IsBlank(d) ==> c.description == c.title)
      && (!IsBlank(d) ==> c.description == d)
    ensures var c := BuildChannel(p, lang, getText, m);
      forall i :: 0 <= i < |p.entries| ==>
        var item := c.items[|p.entries| - 1 - i];
        var d := Lookup(m, ItemDescriptionQuery(p.entries[i], lang, getText));
        && item.title == Lookup(m, ItemTitleQuery(p.entries[i], lang, getText))
        && (IsBlank(d) ==> item.description == item.title)
        && (!IsBlank(d) ==> item.description == d)
  {
    BuildItemsAt(p.entries, lang, getText, m);
    StripEmptyIffBlank(Lookup(m, ChannelDescriptionQuery(p.channel, lang, getText)));
    forall i | 0 <= i < |p.entries|
      ensures var d := Lookup(m, ItemDescriptionQuery(p.entries[i], lang, getText));
        IsBlank(d) <==> Strip(d) == []
    {
      StripEmptyIffBlank(Lookup(m, ItemDescriptionQuery(p.entries[i], lang, getText)));
    }
  }

  /** With a cache filled by getTranslation (which keeps blank texts as they
      are), an entry or channel whose stripped description is blank gets its
      translated title as description, whatever the provider does. */
  lemma BlankBodyGetsTitle(p: ParsedFeed, lang: string, getText: (string, string) -> string, m: map<Query, string>)
    requires BlankKeysKept(m) && FeedCovered(m, p, lang, getText)
    ensures var c := BuildChannel(p, lang, getText, m);
      IsBlank(getText(FirstNonEmpty(p.channel.description, p.channel.subtitle), [])) ==> c.description == c.title
    ensures var c := BuildChannel(p, lang, getText, m);
      forall i :: 0 <= i < |p.entries| ==>
        IsBlank(getText(FirstNonEmpty(p.entries[i].description, p.entries[i].summary), " ")) ==>
          c.items[|p.entries| - 1 - i].description == c.items[|p.entries| - 1 - i].title
  {
    DescriptionFallsBackToTitle(p, lang, getText, m);
    EntriesCallsAt(p.entries, lang, getText);
    StripEmptyIffBlank(getText(FirstNonEmpty(p.channel.description, p.channel.subtitle), []));
    var c := BuildChannel(p, lang, getText, m);
    forall i | 0 <= i < |p.entries|
      ensures IsBlank(getText(FirstNonEmpty(p.entries[i].description, p.entries[i].summary), " ")) ==>
          c.items[|p.entries| - 1 - i].description == c.items[|p.entries| - 1 - i].title
    {
      var q := ItemDescriptionQuery(p.entries[i], lang, getText);
      assert q in ItemCalls(p.entries[i], lang, getText);
      StripEmptyIffBlank(q.text);
    }
  }

  /** An entry built from a cache that holds its keys is built the same from
      any cache that extends it. */
  lemma BuildItemStable(e: SourceEntry, lang: string, getText: (string, string) -> string, m1: map<Query, string>, m2: map<Query, string>)
    requires ItemCovered(m1, e, lang, getText) && Extends(m1, m2)
    ensures ItemCovered(m2, e, lang, getText)
    ensures BuildItem(e, lang, getText, m2) == BuildItem(e, lang, getText, m1)
  {
    assert ItemTitleQuery(e, lang, getText) in m1 && ItemDescriptionQuery(e, lang, getText) in m1;
    if e.author.Some? {
      assert AuthorQuery(e.author.value, lang, getText) in m1;
    }
  }

  /** The body of the `for entry in original_feed.entries` loop for one
      entry: its title, its description (or the title when that translates
      to blank), its author when it has one, then link, guid and pubDate.
      The cache gains exactly the entry's keys and keeps its invariant (every
      value it holds is what getTranslation computed), and the requests are
      those the entry's calls make, in call order. */
  method TranslateItem(cache: TranslationCache, e: SourceEntry, lang: string,
                       getText: (string, string) -> string) returns (item: Item)
    requires cache.Valid()
    modifies cache, cache.translator
    ensures cache.Valid()
    ensures Grew(old(cache.Snapshot()), cache.Snapshot())
    ensures Gained(old(cache.entries), cache.entries, ItemCalls(e, lang, getText))
    ensures cache.requested == old(cache.requested) + NewRequests(ItemCalls(e, lang, getText), old(cache.entries).Keys)
    ensures item == BuildItem(e, lang, getText, cache.entries)
  {
    ghost var s0 := cache.Snapshot();
    var titleQuery := ItemTitleQuery(e, lang, getText);
    var descriptionQuery := ItemDescriptionQuery(e, lang, getText);
    var title := cache.GetTranslation(titleQuery);
    ghost var s1 := cache.Snapshot();
    var description := cache.GetTranslation(descriptionQuery);
    ghost var s2 := cache.Snapshot();
    GrewTransitive(s0, s1, s2);
    CallsCompose(s0.entries, s1.entries, s2.entries, s0.requested, s1.requested, s2.requested,
                 [titleQuery], [descriptionQuery]);
    description := OrTitle(description, title);
    var author: Option<string> := None;
    if e.author.Some? {
      var authorQuery := AuthorQuery(e.author.value, lang, getText);
      var name := cache.GetTranslation(authorQuery);
      author := Some(name);
      GrewTransitive(s0, s2, cache.Snapshot());
      CallsCompose(s0.entries, s2.entries, cache.entries, s0.requested, s2.requested, cache.requested,
                   [titleQuery] + [descriptionQuery], [authorQuery]);
    } else {
      assert ItemCalls(e, lang, getText) == [titleQuery] + [descriptionQuery];
    }
    item := Item(title, description, author, e.link.GetOr([]), IdOrLink(e.id, e.link), PubDate(e.publishedParsed));
  }

  /** Items built from a cache that holds their keys do not change when the
      cache grows. */
  lemma {:induction false} BuildItemsStable(es: seq<SourceEntry>, lang: string, getText: (string, string) -> string,
                                            m1: map<Query, string>, m2: map<Query, string>)
    requires forall j :: 0 <= j < |es| ==> ItemCovered(m1, es[j], lang, getText)
    requires Extends(m1, m2)
    ensures BuildItems(es, lang, getText, m2) == BuildItems(es, lang, getText, m1)
  {
    if es != [] {
      var init := es[..|es| - 1];
      BuildItemStable(es[|es| - 1], lang, getText, m1, m2);
      forall j | 0 <= j < |init| ensures ItemCovered(m1, init[j], lang, getText) {
        assert init[j] == es[j];
      }
      BuildItemsStable(init, lang, getText, m1, m2);
    }
  }

  /** One turn of the loop: the new item goes in front of the items built so
      far, which the grown cache still gives. */
  lemma ItemsStep(es: seq<SourceEntry>, i: nat, lang: string, getText: (string, string) -> string,
                  before: map<Query, string>, after: map<Query, string>, items: seq<Item>, item: Item)
    requires i < |es|
    requires forall j :: 0 <= j < i ==> ItemCovered(before, es[j], lang, getText)
    requires items == BuildItems(es[..i], lang, getText, before)
    requires Extends(before, after)
    requires item == BuildItem(es[i], lang, getText, after)
    ensures [item] + items == BuildItems(es[..i + 1], lang, getText, after)
    ensures EntriesCalls(es[..i + 1], lang, getText) == EntriesCalls(es[..i], lang, getText) + ItemCalls(es[i], lang, getText)
  {
    forall j | 0 <= j < i ensures ItemCovered(before, es[..i][j], lang, getText) {
      assert es[..i][j] == es[j];
    }
    BuildItemsStable(es[..i], lang, getText, before, after);
    assert es[..i + 1][..i] == es[..i];
    assert es[..i + 1][i] == es[i];
  }

  /** One turn of the loop: the cache now covers one more entry. */
  lemma CoveredStep(es: seq<SourceEntry>, i: nat, lang: string, getText: (string, string) -> string,
                    before: map<Query, string>, after: map<Query, string>)
    requires i < |es|
    requires forall j :: 0 <= j < i ==> ItemCovered(before, es[j], lang, getText)
    requires Extends(before, after) && Gained(before, after, ItemCalls(es[i], lang, getText))
    ensures forall j :: 0 <= j < i + 1 ==> ItemCovered(after, es[j], lang, getText)
  {
    forall j | 0 <= j < i + 1 ensures ItemCovered(after, es[j], lang, getText) {
      if j < i {
        assert ItemCovered(before, es[j], lang, getText);
      }
    }
  }

  /** The loop over the source entries, in source order; each new item is
      put in front. The requests are those of the entries' calls, entry
      after entry. */
  method TranslateItems(cache: TranslationCache, es: seq<SourceEntry>, lang: string,
                        getText: (string, string) -> string) returns (items: seq<Item>)
    requires cache.Valid()
    modifies cache, cache.translator
    ensures cache.Valid()
    ensures Grew(old(cache.Snapshot()), cache.Snapshot())
    ensures Gained(old(cache.entries), cache.entries, EntriesCalls(es, lang, getText))
    ensures cache.requested == old(cache.requested) + NewRequests(EntriesCalls(es, lang, getText), old(cache.entries).Keys)
    ensures items == BuildItems(es, lang, getText, cache.entries)
  {
    items := [];
    for i := 0 to |es|
      invariant cache.Valid()
      invariant Grew(old(cache.Snapshot()), cache.Snapshot())
      invariant Gained(old(cache.entries), cache.entries, EntriesCalls(es[..i], lang, getText))
      invariant cache.requested == old(cache.requested) + NewRequests(EntriesCalls(es[..i], lang, getText), old(cache.entries).Keys)
      invariant forall j :: 0 <= j < i ==> ItemCovered(cache.entries, es[j], lang, getText)
      invariant items == BuildItems(es[..i], lang, getText, cache.entries)
    {
      ghost var before := cache.Snapshot();
      var item := TranslateItem(cache, es[i], lang, getText);
      GrewTransitive(old(cache.Snapshot()), before, cache.Snapshot());
      CallsCompose(old(cache.entries), before.entries, cache.entries,
                   old(cache.requested), before.requested, cache.requested,
                   EntriesCalls(es[..i], lang, getText), ItemCalls(es[i], lang, getText));
      CoveredStep(es, i, lang, getText, before.entries, cache.entries);
      ItemsStep(es, i, lang, getText, before.entries, cache.entries, items, item);
      items := [item] + items;
    }
    assert es[..|es|] == es;
  }

  /** The handler's method: it fetches nothing itself (the fetch and the
      parse are the input `fetched`) and translates through `cache`. The
      response is the one `Respond` gives for the final cache. On 200 the
      cache has gained exactly the feed's keys, every value it holds is what
      getTranslation computed, and the provider received the excerpts of the
      feed's calls whose keys were missing, in call order (channel title,
      channel description, then entry by entry); so a feed whose keys were
      all cached sends nothing. A rejected request changes nothing. */
  method GetFeed(cache: TranslationCache, url: Option<string>, lang: Option<string>,
                 fetched: FetchResult, getText: (string, string) -> string) returns (resp: Response)
    requires cache.Valid()
    modifies cache, cache.translator
    ensures cache.Valid()
    ensures Grew(old(cache.Snapshot()), cache.Snapshot())
    ensures resp == Respond(url, lang, fetched, getText, cache.entries)
    ensures !resp.Ok? ==> cache.Snapshot() == old(cache.Snapshot())
    ensures resp.Ok? ==> fetched.Fetched?
    ensures resp.Ok? ==> Gained(old(cache.entries), cache.entries, FeedCalls(fetched.parsed, TargetLang(lang), getText))
    ensures resp.Ok? ==>
      var news := NewRequests(FeedCalls(fetched.parsed, TargetLang(lang), getText), old(cache.entries).Keys);
      && cache.requested == old(cache.requested) + news
      && cache.translator.sent == old(cache.translator.sent) + Requests(news)
    ensures resp.Ok? && (forall q :: q in FeedCalls(fetched.parsed, TargetLang(lang), getText) ==> q in old(cache.entries)) ==>
      cache.translator.sent == old(cache.translator.sent) && cache.entries == old(cache.entries)
  {
    var targetLang := TargetLang(lang);
    if url.None? || url.value == [] {
      return BadRequest(MissingUrlMessage);
    }
    if fetched.FetchFailed? {
      return ServerError(InternalErrorMessage);
    }
    var p := fetched.parsed;
    if p.bozo {
      return BadRequest(MalformedFeedPrefix + p.bozoException);
    }
    ghost var s0 := cache.Snapshot();
    var info := p.channel;
    var titleQuery := ChannelTitleQuery(info, targetLang, getText);
    var descriptionQuery := ChannelDescriptionQuery(info, targetLang, getText);
    var title := cache.GetTranslation(titleQuery);
    ghost var s1 := cache.Snapshot();
    var description := cache.GetTranslation(descriptionQuery);
    ghost var s2 := cache.Snapshot();
    GrewTransitive(s0, s1, s2);
    CallsCompose(s0.entries, s1.entries, s2.entries, s0.requested, s1.requested, s2.requested,
                 [titleQuery], [descriptionQuery]);
    description := OrTitle(description, title);
    var items := TranslateItems(cache, p.entries, targetLang, getText);
    GrewTransitive(s0, s2, cache.Snapshot());
    CallsCompose(s0.entries, s2.entries, cache.entries, s0.requested, s2.requested, cache.requested,
                 [titleQuery] + [descriptionQuery], EntriesCalls(p.entries, targetLang, getText));
    ghost var news := NewRequests(FeedCalls(p, targetLang, getText), s0.entries.Keys);
    assert cache.requested == s0.requested + news;
    cache.SentSince(s0, news);
    resp := Ok(Channel(title, description, info.link.GetOr([]), IdOrLink(info.id, info.link), info.language, items));
    if forall q :: q in FeedCalls(p, targetLang, getText) ==> q in s0.entries {
      cache.ValidLogged();
      NoRequestWhenCached(s0, cache.Snapshot());
    }
  }
}
