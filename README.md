# alertbot change detection, modelled in Dafny

alertbot watches one web page and sends a Telegram message for every new
entry on it. This project models the part of alertbot that decides what is
"new":

- **Configuration** (`config.py`). Environment variables are read into a
  `Config`. This covers the boolean and integer parsers, the keyword list,
  the optional CSS selectors and the proxy map.
- **Extraction** (`parser.py`). A fetched page becomes an ordered list of
  items. Each item has a title, an optional absolute link, a content text and
  an identity hash. When no item selector is configured, or it matches
  nothing, the whole page is a single item.
- **The seen-item store** (`storage.py`). This is an SQLite table with
  unique indexes on `link` and `content_hash`. An item is looked up by its
  link when it has a non-empty one, and by its hash otherwise. Marking an
  item is an insert-or-ignore, which uses up an id even when it is ignored.
- **The poll cycle** (`main.py`). One pass of the endless loop: the keyword
  gate, the seen check, seed mode, send-then-mark, and the pause between
  cycles.

Layout:

| file | module | models |
|---|---|---|
| `options.dfy` | `Options` | `Option` and `Result` |
| `strings.dfy` | `Strings` | the parts of Python's `str` this code uses: `strip`, `lower`, `in`, `split(",")` |
| `settings.dfy` | `Settings` | `config.py` |
| `parser.dfy` | `Parser` | `parser.py` |
| `storage.dfy` | `Store` | `storage.py`, including the `Storage` class |
| `poll.dfy` | `Poll` | `main.py` |

The model takes the source's own form:
- Configuration and extraction are pure functions.
- The store is a class whose `rows` and `lastId` fields its methods update.
  Each method is proved against the pure `Insert` / `Seen` specification.
- The item loop of a cycle is a `for` loop over that store. It is proved
  against the recursive specification `RunItems`, and the cycle's properties
  are lemmas about `RunItems`.

Foreign code enters as parameters:
- BeautifulSoup, `urljoin` and SHA-256 are the function values of a
  `Toolkit`. Only the policy built on top of them is modelled.
- The environment is an `Environment` record of optional strings.
- A fetched page is an `Option<string>`, where `None` means `fetch_html`
  raised.
- The notifier is a function `nat -> bool` that says whether the n-th send
  of the cycle returns or raises.
- A database file is an `Option<Table>`, where `None` means it does not
  exist yet.

Where the intended behaviour and the code differ, the model follows the code:
- **A failed send aborts the whole cycle.** `send_telegram` raising inside
  the loop skips the rest of the loop. That item stays unmarked, and the
  items after it wait for the next cycle. The intended behaviour was that a
  failed notification does not suppress the rest of the cycle.
- **A failed fetch keeps seed mode.** Seed mode was meant to end after the
  first cycle, whatever its outcome. In the code `seed_only` is cleared only
  after an item loop has run, so a cycle whose fetch raises leaves it set
  (`Poll.PollOnce`). A send cannot fail in seed mode, since nothing is sent
  there (`Poll.SeedModeSilent`).
- **Whole-page mode notifies once, not on every change.** The page was meant
  to be reported again whenever its text changes. The page item always
  carries the target URL as its link, and a truthy link is looked up by link
  only. So once that row exists, no later whole-page cycle sends anything,
  whatever the text (`Poll.WholePageQuietOnceStored`).
- **A missing link hashes as the text `None`.** A multi-item entry with no
  link contributes `None` to its hashed text (`f"{link}"`), not an empty
  placeholder.
- **Pruning is never reached.** `storage.prune_keep_latest` is called in
  `main.py` but `Storage` does not define it. Every cycle whose item loop
  completes therefore ends in the caught `AttributeError`
  (`CycleEnd.PruneMissing`), and the table is never pruned. `seed_only` is
  cleared just before that call, so clearing it still happens.

## Model

| member | source | states |
|---|---|---|
| Strings.Strip | src/alertbot/config.py:11 | `str.strip()` yields text with no leading or trailing Python whitespace, drawn from the input; it is empty exactly when the input is all whitespace |
| Strings.StripIn | src/alertbot/config.py:18 | for either whitespace set, that of `str.strip()` or the smaller one `int()` skips (without U+001C..U+001F), stripping leaves no such whitespace at either end, keeps only characters of the input, and gives the empty text exactly for an all-whitespace input |
| Strings.StripPadded | src/alertbot/config.py:59 | stripping `pre + w + post`, where `pre` and `post` are whitespace and `w` is non-empty and already trimmed, gives back exactly `w` |
| Strings.StripInPadded | src/alertbot/config.py:18 | for either whitespace set, stripping `pre + w + post` with whitespace-only `pre` and `post` and a trimmed, non-empty `w` gives back exactly `w` |
| Strings.JoinSplit | src/alertbot/config.py:57 | `split(",")` loses nothing: joining its pieces with the separator gives back the input |
| Strings.SplitJoin | src/alertbot/config.py:57 | splitting the join of separator-free pieces gives back those pieces |
| Strings.NotContainsFirstChar | src/alertbot/main.py:24 | a needle whose first character is absent from the haystack is not `in` it |
| Strings.Contains | src/alertbot/main.py:24 | `needle in hay` can hold only when the needle is no longer than the haystack |
| Strings.ContainsEmpty | src/alertbot/main.py:24 | the empty text is `in` every string |
| Strings.Lower | src/alertbot/main.py:23-24 | lowercasing keeps the length, maps each character on its own, and leaves no capital letter |
| Strings.LowerIdempotent | src/alertbot/main.py:23-24 | lowercasing an already lowercased text changes nothing |
| Strings.Split | src/alertbot/config.py:57 | `split(",")` yields at least one piece and no piece contains the separator; `JoinSplit` and `SplitJoin` show nothing is lost |
| Settings.ParseBool | src/alertbot/config.py:8-11 | an unset variable gives the default, and a set but blank one gives false |
| Settings.ParseBoolIgnoresDefault | src/alertbot/config.py:8-11 | the default matters only when the variable is unset; a set but empty variable is false |
| Settings.ParseBoolPadded | src/alertbot/config.py:8-11 | a set value is true exactly when its stripped, lowercased text is one of `1`, `true`, `yes`, `y`, `on` |
| Settings.ParseInt | src/alertbot/config.py:14-20 | an unset or blank variable gives the default; any other result is the value `int()` reads from the text |
| Settings.PyInt | src/alertbot/config.py:18 | `int()` succeeds only on text that is not blank under its own whitespace set and whose stripped form ends in a digit |
| Settings.IntLiteral | src/alertbot/config.py:18 | `int()` on stripped text accepts only text that ends in a digit, and a negative result only from text that starts with `-`; digit runs over 4300 digits are refused |
| Settings.ParseIntRoundTrip | src/alertbot/config.py:14-20 | an integer of at most 4300 digits, written in decimal and padded with whitespace `int()` skips, parses back to itself whatever the default |
| Settings.ParseIntTooLong | src/alertbot/config.py:17-20 | a number of more than 4300 digits keeps the default, padded or not, because `int()` raises on it |
| Settings.ParseIntSeparator | src/alertbot/config.py:15-20 | `\x1c5` keeps the default: `strip()` leaves text behind, but `int()` refuses the leading separator |
| Settings.ParseIntBlank | src/alertbot/config.py:14-16 | an unset variable, or one holding only whitespace, gives the default |
| Settings.IntLiteralDecimal | src/alertbot/config.py:18 | `int(str(n)) == n` for every integer, negative ones included, that has at most 4300 digits, the most `str` and `int` accept |
| Settings.ParseIntRejects | src/alertbot/config.py:17-20 | text `int()` refuses (`7a`, `1__0`) falls back to the default |
| Settings.RejectedText | src/alertbot/config.py:17-20 | trimmed text that starts with a digit but is not a well-formed digit run falls back to the default |
| Settings.ParseIntUnderscore | src/alertbot/config.py:18 | single underscores between digits are accepted, as `int()` does (`1_5` is 15) |
| Settings.NatDigitsRoundTrip | src/alertbot/config.py:18 | the decimal digits of a natural number are digits and read back as that number |
| Settings.DecimalShape | src/alertbot/config.py:18 | a decimal numeral is non-empty and trimmed, with an optional minus sign followed by a digit run of the right value and of as many counted digits as the magnitude has |
| Settings.StripAll | src/alertbot/config.py:57 | `[k.strip() for k in pieces if k.strip()]` holds only non-empty, already stripped keywords |
| Settings.KeywordList | src/alertbot/config.py:57 | every keyword is non-empty, already stripped, and contains no comma |
| Settings.StripAllAvoids | src/alertbot/config.py:57 | stripping and dropping blank pieces cannot introduce a character the pieces lack |
| Settings.KeywordListOfJoined | src/alertbot/config.py:57 | a comma-joined list reads back as its stripped, non-blank pieces, in order |
| Settings.NoKeywords | src/alertbot/config.py:57 | an unset `KEYWORDS` gives no keywords |
| Settings.OrNone | src/alertbot/config.py:64-67 | `os.getenv(..) or None` is `None` exactly for an unset or empty variable, and the value itself otherwise |
| Settings.FromEnv | src/alertbot/config.py:56-87 | every configured selector is non-empty, the target URL is stripped, and keywords are non-empty and stripped |
| Settings.FromEnvDefaults | src/alertbot/config.py:57-85 | unset variables give a 60 s interval, 30 max items, seed mode on, keyword filtering off, no keywords and an empty target URL |
| Settings.Proxies | src/alertbot/config.py:89-95 | the map has an `http` / `https` entry exactly when that proxy is set and non-empty, holds that proxy as the value, and has no other keys |
| Parser.SelectText | src/alertbot/parser.py:25-30 | the selector's first match supplies the text when the selector is set and matches; otherwise the element's own text |
| Parser.HrefOf | src/alertbot/parser.py:36-39 | an `href` is taken only from a found element, is that element's own `href`, and is never the empty text |
| Parser.SelectLink | src/alertbot/parser.py:33-41 | a non-empty `href` on the selector's match wins, then the first anchor's non-empty `href`, else no link; an empty link never comes out |
| Parser.NormalizeLink | src/alertbot/parser.py:44-47 | a missing or empty link stays missing; any other link is resolved against the target URL |
| Parser.Matched | src/alertbot/parser.py:53-56 | without an item selector no element is matched |
| Parser.LinkText | src/alertbot/parser.py:68 | a link prints as itself, and the printed text is `None` exactly for a missing link or the link `None` |
| Parser.HashInput | src/alertbot/parser.py:68 | the hashed text starts with the title followed by a bar, ends with the content, and is two bars longer than title, printed link and content together |
| Parser.ParseItems | src/alertbot/parser.py:50-71 | the result is never empty; it is the single page item when nothing is matched, and otherwise one item per matched element, in order |
| Parser.PageItem | src/alertbot/parser.py:59-61 | the whole-page item is titled `Page Update`, links to the target URL, and its hash is the digest of its own content |
| Parser.ItemOf | src/alertbot/parser.py:63-69 | an item built from an element has a non-empty title, has a link exactly when the element yields a non-empty one, and its hash is the digest of its own title, link and content joined by bars |
| Parser.WholePageWhen | src/alertbot/parser.py:53-61 | whole-page mode happens exactly when the item selector is unset or matches nothing; the item then has the title `Page Update`, the target URL as link, and the page text and its hash |
| Parser.TitlesNeverEmpty | src/alertbot/parser.py:65 | no item has an empty title, because an empty selected title becomes `(no title)` |
| Parser.ContentSource | src/alertbot/parser.py:66 | content comes from the content selector only when one is set, and otherwise is the element's whole text |
| Parser.LinksNeverEmpty | src/alertbot/parser.py:61-67 | with a non-empty target URL against which `urljoin` keeps every non-empty reference non-empty (a stated assumption on the library), an item's link is either missing or non-empty |
| Parser.EqualFieldsEqualHash | src/alertbot/parser.py:68-69 | items with equal title, link and content are equal, hash included |
| Parser.HashInputInjective | src/alertbot/parser.py:68 | the hashed text (title, link and content joined by bars) determines all three fields when titles and links hold no bar and no link is the text `None` |
| Parser.SplitAtFirstBar | src/alertbot/parser.py:68 | two texts that agree after inserting a bar behind bar-free prefixes agree on both parts |
| Parser.HashInputAmbiguous | src/alertbot/parser.py:68 | without those conditions distinct items collide: a missing link prints as `None`, and a bar in a title shifts the fields |
| Store.InitDb | src/alertbot/storage.py:14-31 | a missing file opens as an empty table; an existing one opens unchanged when both unique indexes can be built, and is refused otherwise |
| Store.LinkStored | src/alertbot/storage.py:36-37 | the link lookup can succeed only on a non-empty table |
| Store.HashStored | src/alertbot/storage.py:34-35 | the hash lookup can succeed only on a non-empty table |
| Store.StoredAppend | src/alertbot/storage.py:34-37 | after a row is appended, a link or hash is found exactly when it was found before or is the new row's |
| Store.UniqueKeys | src/alertbot/storage.py:27-30 | under both unique indexes a hash, and a non-NULL link, identifies at most one row |
| Store.Conflicts | src/alertbot/storage.py:51 | without a conflict no stored row has the item's hash, nor its link when the link is not NULL |
| Store.Seen | src/alertbot/storage.py:33-41 | an item that is seen clashes with a stored row, so its insert would be ignored |
| Store.Insert | src/alertbot/storage.py:48-54 | insert-or-ignore adds at most one row and always advances the AUTOINCREMENT sequence by one |
| Store.Storage.constructor | src/alertbot/storage.py:10-12 | the store opens on the table `_init_db` yields, and that table is well formed |
| Store.Storage.IsSeen | src/alertbot/storage.py:33-41 | seen means a stored row has the same link when the item's link is non-empty, and a stored row has the same hash otherwise |
| Store.Storage.IsEmpty | src/alertbot/storage.py:43-46 | empty exactly when no row is stored |
| Store.Storage.MarkSeen | src/alertbot/storage.py:48-54 | appends one row under the next id exactly when neither the item's non-NULL link nor its hash is stored, and otherwise keeps the rows; the sequence advances by one either way, and the unique indexes stay intact |
| Store.InsertKeepsWellFormed | src/alertbot/storage.py:48-54 | insert-or-ignore preserves uniqueness of non-NULL links and of hashes, and the increasing ids |
| Store.InsertAppendsOrIgnores | src/alertbot/storage.py:48-54 | an insert keeps the rows exactly when it conflicts, and otherwise appends one row for the item above every existing id, keeping the earlier rows; the sequence advances by one either way |
| Store.InsertIdempotent | src/alertbot/storage.py:48-54 | marking the same item twice leaves the rows as marking it once, though it uses up two ids |
| Store.SeenMeansIgnored | src/alertbot/storage.py:33-54 | marking an item that is already seen leaves every row as it was |
| Store.InsertMonotone | src/alertbot/storage.py:33-54 | marking never makes another item unseen, or remove one of its conflicts |
| Store.SeenAfterInsert | src/alertbot/storage.py:33-54 | after marking, an item is seen exactly unless (a) its non-empty link is new but its hash is already stored, so the insert was ignored, or (b) its link is the empty text, which is already stored while its hash is not |
| Store.NullLinksNeverCollide | src/alertbot/storage.py:27-30 | two link-less items with fresh, distinct hashes are both stored, since NULL links never collide in the unique index |
| Store.SameLinkStoredOnce | src/alertbot/storage.py:27-30 | once a link is stored, a second item with that link clashes and leaves the rows unchanged |
| Store.IgnoredInsertUsesId | src/alertbot/storage.py:19 | after marking `a`, marking it again and then a different `b`, the rows are `a` under id 1 and `b` under id 3: an ignored insert uses up an id |
| Store.SameEntriesSameAnswers | src/alertbot/storage.py:33-54 | whether an item is seen or clashes depends on the stored titles, links and hashes, not on the ids |
| Store.InsertSameEntries | src/alertbot/storage.py:48-54 | tables holding the same entries still hold the same entries after the same insert |
| Poll.AnyKeyword | src/alertbot/main.py:24 | true exactly when some lowercased keyword occurs in the haystack |
| Poll.MatchesKeywords | src/alertbot/main.py:20-24 | no keywords lets everything through; otherwise true exactly when some lowercased keyword occurs in the lowercased `title content` |
| Poll.Haystack | src/alertbot/main.py:23 | the searched text is the lowercased title, one space, then the lowercased content |
| Poll.Passes | src/alertbot/main.py:46 | with keyword filtering off, or no keywords, every item passes the gate |
| Poll.TitleMatchSuffices | src/alertbot/main.py:23-24 | a keyword found in the title alone matches, whatever the content |
| Poll.KeywordMatchIgnoresCase | src/alertbot/main.py:23-24 | the keyword `SALE` matches the title `Big Sale`: keyword and text are both lowercased |
| Poll.KeywordMissing | src/alertbot/main.py:23-24 | the keyword `sale` does not match an item titled `Update` with no content |
| Poll.InitialSeedOnly | src/alertbot/main.py:39 | seed mode starts exactly when seeding is configured and the store is empty |
| Poll.SleepSeconds | src/alertbot/main.py:60 | the pause is the configured interval, but never under five seconds |
| Poll.RunItemsBounds | src/alertbot/main.py:45-54 | a cycle delivers no more items than the page has and only items of the page; the item whose send raised is on the page, and seed mode never fails |
| Poll.RunLoop | src/alertbot/main.py:45-54 | the imperative item loop reaches the table, deliveries and failure that `RunItems` specifies |
| Poll.PollOnce | src/alertbot/main.py:41-58 | a failed fetch changes nothing; otherwise the store ends as `RunItems` says; a failed send keeps seed mode and ends the cycle, a finished loop clears seed mode and ends at the missing prune call |
| Poll.SeedModeSilent | src/alertbot/main.py:50-52 | in seed mode nothing is sent and no send can fail |
| Poll.SeedModeMarksEligible | src/alertbot/main.py:46-52 | in seed mode the stored entries end as insert-or-ignore of every item passing the keyword gate, in order; ids may differ, since a seen item is skipped without drawing one |
| Poll.GateDropsIneligible | src/alertbot/main.py:46-47 | items failing the keyword gate reach neither the store nor the notifier |
| Poll.MarkedOnlyAfterDelivery | src/alertbot/main.py:53-54 | outside seed mode the store ends as exactly the delivered items marked in order; every delivered item passed the gate, and an item whose send raised stays unseen |
| Poll.AllSeenQuiet | src/alertbot/main.py:46-49 | a page whose items are all seen or filtered out sends nothing and changes nothing |
| Poll.WholePageQuietOnceStored | src/alertbot/main.py:48-49 | in whole-page mode, once the target URL is stored, no cycle sends or changes anything |
| Poll.WholePageAtMostOnce | src/alertbot/main.py:48-54 | in whole-page mode, if the page's hash was not stored before, then after a cycle that delivered the page the next whole-page cycle sends nothing, whatever the page text |
| Poll.WholePageRepeats | src/alertbot/main.py:48-54 | in whole-page mode, if the page's hash is already stored under another link, the page is sent and its insert is ignored, so the rows stay as they were and every later cycle on the same text sends it again |

## Left out

- Fetching (`fetcher.py`) and its headers, retries, TLS options and proxies are not part of this model. A fetched page is a parameter, with `None` standing for a fetch that raised.
- Notification (`notifier.py`), the startup message and the per-message delay are not part of this model. Each send is only "returned" or "raised".
- HTML parsing, CSS selection, `get_text`, `urljoin` and SHA-256 are library code. They are the function values of `Parser.Toolkit` and their internals are not modelled. An invalid selector that makes `select` raise, or any other exception during parsing, is not modelled: `Parser.ParseItems` is total, so a cycle can fail only at the fetch, at a send, or at the missing prune call.
- SQLite I/O errors, connections and commits are not modelled. The `created_at` column and the `db_path` field are not modelled either.
- `prune_keep_latest` does not exist in `Storage`, so there is no pruning to model. Its call in `main.py` ends every completed cycle with a caught error (`Poll.CycleEnd.PruneMissing`). Consequently `maxItems` is parsed but never used.
- The `while True` loop itself, logging, `time.sleep`, `load_dotenv` and the startup check that `TARGET_URL` is set are not modelled as code. One cycle is `Poll.PollOnce`, the pause is `Poll.SleepSeconds`, and the whole-page lemmas assume a non-empty target URL, as that check guarantees.
- The `Config` fields used only by fetching, notification and logging are not modelled: user agent, language, referer, cookie, retry, TLS, Telegram and log level. `STATE_DB_PATH` is not modelled either.
- Strings.Lower: lowercases ASCII letters only. It is exact for the boolean words, since no other character lowercases to one of their letters. Keyword matching on non-ASCII text whose lowercase form differs is not captured.
- Settings.PyInt: accepts only ASCII digits and signs, padded with the whitespace `int()` skips. `int()` also accepts other Unicode decimal digits; those are not modelled. The digit limit is the default 4300; a limit changed through `PYTHONINTMAXSTRDIGITS` or `sys.set_int_max_str_digits` is not modelled.
- Parser.LinksNeverEmpty: holds only under the stated assumption that `urljoin` keeps non-empty references non-empty against the target URL. The library does not promise that for every base (`urljoin("?", "#")` is empty), and `urljoin` is a parameter here, so the model cannot decide it.
- Poll.WholePageAtMostOnce: requires that the page's hash was not stored before the first cycle. When it was, under another link, the page is sent on every cycle; `Poll.WholePageRepeats` proves that case.
- Poll.SeedModeMarksEligible: compares the stored entries (title, link, hash) and not the ids. A seen item is skipped without an insert, so it draws no id, while insert-or-ignore of the same item would.
- Parser.HashText: SHA-256 is taken as an opaque function of the text. The UTF-8 encoding with `errors="ignore"` is not modelled, so surrogate characters dropped by the encoder are not captured.
