# MTG deck builder: a verified model of its core logic

This project models in Dafny the parts of the MTG deck-builder application
that carry logic rather than presentation, and proves what they promise:

- **The deck** (`models.py`, module `Models`): a `Deck` keeps a card-name to
  quantity dict that `add_card` and `remove_card` change in place. The dict
  is the value `CardCounts`: its keys in insertion order plus the quantity
  stored under each, because that order is what the simulator flattens and
  the deck list shows. `Deck` is a class whose methods reassign `cards`.
  Their results are tied to the value functions `AfterAdd` and
  `AfterRemove`, and lemmas about those state the promises: which entry
  changes and how, the change of `total_cards()`, and the "every quantity is
  positive" invariant. `Card.from_scryfall_json` is modelled on a JSON object
  whose fields may be absent.
- **The simulator** (`battle_simulator.py`, module `BattleSimulator`):
  `_deck_to_list` is a loop that flattens the deck, and it is proved to give
  each card with a positive quantity exactly that many copies, and a card
  whose quantity is zero or less none. `simulate_hand` takes the positions that
  `random.sample` chose as an input. `simulate_match` is a counting loop over
  the per-iteration draws. `record_manual_result` is an append to the
  history.
- **The deck-list and search-list text** (`main.py`, module `DeckEntries`).
  These cover `is_land`, the line `"{qty}× {name}{flag}"` that the deck list
  shows, and the parsing of that line back in `remove_selected` and
  `on_deck_select`. They also cover the search-result line and the name
  extraction that `on_result_select` and `add_card_to_deck` apply to it. The
  window's callbacks are methods of a class holding the current deck and the
  card cache. The card lookup `get_card_by_name` is a `catalog` map.
- **The update check** (`update_checker.py`, module `UpdateChecker`). The
  tag's leading `v`s are stripped. Versions become tuples through `to_tuple`,
  which keeps the all-digit components. An update is offered when the
  remote tuple is greater under Python's tuple order.

Module `PyText` (`pytext.dfy`) models the Python string operations the code
relies on: `str.strip` with Python's whitespace, `str.find`/`in`, `str(int)`
and `int(str)` in base 10 (sign, digits, single underscores between digits).
`int()` skips less whitespace than `strip()`: it rejects the separators
U+001C to U+001F, which `strip()` removes. So `int(qty_str.strip())` in
`remove_selected` and the unstripped `int(...)` in `add_card_to_deck` are
modelled as two different things.
Module `Wrappers` holds `Option` and `Result`.

The name extraction `display.split("  •  ")[0].strip()` reads a card's name
back from its search line only when the name has no surrounding whitespace,
does not contain `"  •  "`, and does not end in `"  •"`. In the last case
the separator that follows the name completes an earlier separator, and the
name is cut short. `SearchLineCutsBulletEnding` shows this for the name
`"X  •"`. No real card name has that ending, so this is recorded as a
precondition of the round trip rather than as a defect.

## Model

| member | source | states |
|---|---|---|
| Models.FromScryfallJson | models.py:19-30 | the first missing required key (in the order id, name, type_line, set_name, rarity) raises `KeyError`; otherwise every field is copied, `mana_cost`/`oracle_text` default to None, `image_url` is `image_uris["normal"]` or None, `colors` defaults to the empty list |
| Models.AfterAdd | models.py:39-40 | `add_card` keeps the dict well formed; an existing card keeps its place in the order and a new card goes last |
| Models.AfterRemove | models.py:42-48 | `remove_card` keeps the dict well formed; the order is unchanged unless the card is deleted, and then only that card leaves it |
| Models.CardCounts.Set | models.py:40 | `cards[name] = v`: the entry holds `v`, an existing key keeps its place and a new one goes last, every other entry is unchanged, and the total changes by `v` minus the old quantity |
| Models.CardCounts.Delete | models.py:48 | `del cards[name]`: the key leaves the map and the order, the others keep their order and quantities, and the total drops by the deleted quantity |
| Models.AddSetsEntry | models.py:39-40 | `add_card(n, q)` stores the old quantity (0 if absent) plus `q` under `n`, and leaves every other key and value as it was |
| Models.AddTotal | models.py:39-40 | `add_card(n, q)` raises `total_cards()` by exactly `q` |
| Models.AddKeepsPositive | models.py:39-40 | adding `q >= 1` keeps every stored quantity positive |
| Models.AddNonPositiveBreaksPositive | models.py:39-40 | adding `q <= 0` of a new card stores a non-positive quantity: the code has no guard, so `q >= 1` is what keeps the invariant |
| Models.RemoveAbsentIsNoop | models.py:43 | removing a card the deck does not hold changes nothing |
| Models.RemoveEntry | models.py:42-48 | a positive remainder is stored, otherwise the key is deleted; no zero or negative quantity is stored under the name, other entries are untouched and no key is added |
| Models.RemoveKeepsPositive | models.py:42-48 | removing keeps every stored quantity positive, whatever `q` is |
| Models.RemoveTotal | models.py:42-51 | removing lowers the total by `q` when a positive remainder is kept, by the whole stored quantity when the key is deleted, and by nothing when the card is absent |
| Models.RemoveAllDeletes | models.py:44-48 | removing the whole stored quantity deletes the card and lowers the total by that quantity |
| Models.TotalAtLeastDistinct | models.py:50-51 | with every quantity positive, the sum of the quantities is at least the number of distinct cards |
| Models.Deck.constructor | models.py:35-36 | `Deck(name=...)` has that name and an empty card dict |
| Models.Deck.FromDict | models.py:56-60 | `from_dict(data)` has `data`'s name and cards, so `from_dict(to_dict(d))` has the name and the card dict of `d` |
| Models.Deck.ToDict | models.py:53-54 | `to_dict()` carries the deck's name and its card dict itself; what makes it the right serialisation is the round trip stated at `Deck.FromDict` |
| Models.Deck.TotalCards | models.py:50-51 | `total_cards()` is at least the number of distinct cards while every quantity is positive |
| Models.Deck.AddCard | models.py:39-40 | the new dict is `AfterAdd` of the old one: the entry grows by `q`, other entries keep their quantities, the total grows by `q`, and positivity is kept when `q >= 1` |
| Models.Deck.RemoveCard | models.py:42-48 | the new dict is `AfterRemove` of the old one: an absent card changes nothing, no non-positive quantity is stored, no key is added, other entries are unchanged, and positivity is kept |
| BattleSimulator.Flatten | battle_simulator.py:16-19 | the flat list holds only names that are keys of the dict |
| BattleSimulator.DeckList | battle_simulator.py:12-19 | the flat list of a deck holds only cards of that deck |
| BattleSimulator.Copies | battle_simulator.py:18 | `[name] * qty` holds `qty` copies of `name`, and none for a quantity of zero or less |
| BattleSimulator.CopiesCount | battle_simulator.py:18 | `[name] * qty` holds `name` exactly `qty` times (for positive `qty`) and no other card |
| BattleSimulator.FlattenLength | battle_simulator.py:12-19 | with no negative quantity, the flat list is as long as the sum of the quantities |
| BattleSimulator.FlattenCount | battle_simulator.py:12-19 | each card occurs in the flat list exactly as many times as its positive quantity, and other names do not occur |
| BattleSimulator.DeckListCounts | battle_simulator.py:12-19 | for a deck with positive quantities, the flat list's length is `total_cards()` and each card occurs `qty` times |
| BattleSimulator.DeckToList | battle_simulator.py:12-19 | the loop builds the flat list in key order; each card occurs as often as its positive quantity, and the length is `total_cards()` when every quantity is positive |
| BattleSimulator.Draw | battle_simulator.py:29 | the sampled hand holds one card per sampled position, so it has `hand_size` cards |
| BattleSimulator.DrawWithinDeck | battle_simulator.py:29 | a hand sampled at distinct positions never holds more copies of a card than the deck does |
| BattleSimulator.LandCount | battle_simulator.py:30 | the land count of a hand is between 0 and the hand's size |
| BattleSimulator.LandCountIsBasicCopies | battle_simulator.py:30 | the land count is the number of copies of Plains, Island, Swamp, Mountain and Forest in the hand: no other name counts |
| BattleSimulator.BasicLandCopies | battle_simulator.py:7 | a card counts as a land exactly when it is one of the five basic land names |
| BattleSimulator.Keepable | battle_simulator.py:30-31 | a hand is keepable exactly when its copies of Plains, Island, Swamp, Mountain and Forest number 2 to 5, so a keepable hand holds at least two cards |
| BattleSimulator.HandOutcome | battle_simulator.py:27-31 | a flat list shorter than `hand_size` is never keepable, and a keepable result needs `2 <= hand_size <= len(card_list)` |
| BattleSimulator.SimulateHand | battle_simulator.py:21-31 | a deck with fewer cards than `hand_size` gives False; otherwise the answer is True exactly when the sampled hand holds 2 to 5 basic lands |
| BattleSimulator.Record | battle_simulator.py:44-49 | one iteration adds exactly one to the three counts together and lowers none of them, so the two counters not incremented keep their values; `wins1` grows exactly when hand 1 is keepable and hand 2 is not, `wins2` symmetrically |
| BattleSimulator.Score | battle_simulator.py:40-50 | two decks that get the same result in every game tie every game |
| BattleSimulator.ScoreSum | battle_simulator.py:40-50 | `wins1 + wins2 + ties` equals the number of iterations |
| BattleSimulator.ScoreSymmetric | battle_simulator.py:44-49 | swapping the decks swaps the win counts and keeps the ties |
| BattleSimulator.ScoreAllMisses | battle_simulator.py:44-49 | when neither deck keeps a hand in any iteration, every iteration is a tie |
| BattleSimulator.SmallDecksAlwaysTie | battle_simulator.py:27-49 | when both decks have fewer than 7 cards, both win counts are 0 and `ties` is the number of iterations |
| BattleSimulator.SimulateMatch | battle_simulator.py:33-50 | the counters are the pairwise score of the two decks' hand results: a win for the deck that kept when the other did not, a tie otherwise; the counts add up to the iterations, and two decks under 7 cards tie every game |
| BattleSimulator.RecordManualResult | battle_simulator.py:81-83 | the history gains exactly one record `{deck, opponent, result}` at the end, and the earlier records are unchanged |
| PyText.Strip | main.py:365 | `strip()` leaves no whitespace at either end and never lengthens the text |
| PyText.ParseInt | main.py:305-309 | `int()` of blank text raises, text that starts or ends with one of U+001C to U+001F raises, and a negative result comes from text whose first character after `int()`'s whitespace is "-" |
| PyText.IntToStringRoundTrip | main.py:362 | `int()` reads back the quantity text that the deck list printed |
| PyText.ParseIntStripped | main.py:362 | for text without U+001C to U+001F, `int(qty_str.strip())` equals `int(qty_str)`: on such text `int` and `strip` skip the same whitespace |
| PyText.SeparatorNotSkipped | main.py:306 | `int("\x1c3")` raises while `int("\x1c3".strip())` is 3: `int` does not skip a separator that `strip` removes |
| PyText.StripPadded | main.py:365 | `strip()` removes exactly the whitespace padding around text that has none of its own |
| DeckEntries.IsLand | main.py:17-18 | a card is a land exactly when the first search for "Land" in its type line finds it |
| DeckEntries.LandInTypeLine | main.py:17-18 | any type line with "Land" anywhere in it marks a land |
| DeckEntries.Flag | main.py:387-389 | the flag is either nothing or " ⚠", and it is " ⚠" exactly when more than one copy of a card that is not a land is listed |
| DeckEntries.FormatEntry | main.py:387-392 | a deck-list line starts with the quantity's decimal text, followed by "×" |
| DeckEntries.FormatEntryParts | main.py:387-392 | a deck-list line is the quantity, "×", a space, the found card's name or the entry's own name, and the flag for a found card; it is the layout that `EntryRoundTrip` parses back |
| DeckEntries.ParseEntry | main.py:357-367 | a line without "×" is not parsed, and a parsed name has no surrounding whitespace |
| DeckEntries.EntryCardName | main.py:332-338 | `on_deck_select` reads a name exactly when the line holds a "×", and the name has no surrounding whitespace |
| DeckEntries.SearchLine | main.py:221 | a search line starts with the card's name, followed by the separator "  •  " |
| DeckEntries.SplitAtTimes | main.py:357-358 | `entry.split("×", 1)` gives two parts exactly when the entry holds a "×"; the first part holds none, and the parts joined by "×" give the entry |
| DeckEntries.EntryName | main.py:365-367 | the parsed card name has no surrounding whitespace |
| DeckEntries.ParseEntrySplit | main.py:357-367 | the line is cut at its first "×": the quantity is the integer that the stripped text before it spells, if it spells one, and the name comes from the text after it |
| DeckEntries.ParseEntryNoTimes | main.py:357-359 | a line without "×" is not parsed, so the deck is left unchanged |
| DeckEntries.EntryParsesAgree | main.py:332-338 | `on_deck_select` reads the same name as `remove_selected` wherever the latter parses the line |
| DeckEntries.FlagRule | main.py:384-392 | for a shown name that does not itself end in "⚠", the line ends in "⚠" exactly when more than one copy of a found card that is not a land is listed; an unresolved card never gets the flag |
| DeckEntries.EntryRoundTrip | main.py:357-367 | parsing a shown entry gives back its quantity and shown name, flagged or not, for a name without surrounding whitespace that does not end in "⚠" |
| DeckEntries.EntryNameRoundTrip | main.py:365-367 | stripping, then dropping a trailing "⚠" and stripping again, recovers the shown name from " name" and " name ⚠" |
| DeckEntries.ExtractName | main.py:237 | the name taken from a search line has no surrounding whitespace |
| DeckEntries.SearchLineRoundTrip | main.py:221-237 | the name extracted from a card's search line is the card's name when it has no surrounding whitespace, no "  •  " inside and no "  •" at its end |
| DeckEntries.SearchLineCutsBulletEnding | main.py:221-237 | the name "X  •" is extracted from its search line as "X" |
| DeckEntries.LookupIn | main.py:384 | a cached card is returned first, and the catalog is asked only when the cache does not hold the name; the lookup fails exactly when neither holds it, and a found card has the name asked for when both store cards under their own names |
| DeckEntries.LookupCacheNamesMatch | main.py:383-386 | refreshing keeps every cached card under its own name, whatever the catalog returns |
| DeckEntries.LookupAll | main.py:383-386 | the lookups of the deck's entries give one result per entry, the cache only grows, and every card found is then in the cache |
| DeckEntries.DeckLines | main.py:387-393 | the deck list has one line per entry, and every line holds the "×" that `on_deck_select` and `remove_selected` cut at |
| DeckEntries.LookupsMatchNames | main.py:383-386 | when the lookup returns cards under the requested name, every entry that is found is found as a card of its own name |
| DeckEntries.ListedEntriesParse | main.py:383-393 | when the lookup returns cards under the requested name and every deck key is readable (no surrounding whitespace and no trailing "⚠"), each line of the refreshed deck list parses back to its entry's stored quantity and name |
| DeckEntries.RemoveListedEntryDeletesCard | main.py:369-370 | when the lookup returns cards under the requested name and every deck key is readable (no surrounding whitespace and no trailing "⚠"), removing a listed line removes the parsed quantity, which is the stored quantity, so the card leaves the deck and the other cards stay |
| DeckEntries.AfterRemoveSelected | main.py:350-370 | removing a selected line adds no card and keeps the dict well formed and every quantity positive; no selection, a line without "×" or a line whose quantity is not an integer leaves the deck unchanged; a parsed line removes its parsed quantity of its parsed name (`AfterRemove`) |
| DeckEntries.RenamedEntryIsNotRemoved | main.py:369-390 | a deck entry "x" whose lookup returns the card "X" is listed as "X", and removing that line leaves the deck unchanged |
| DeckEntries.UnfoundLineParses | main.py:357-367 | the line `"{qty}× {name}"` of a card the lookup does not find parses back to `qty` and to the name read from `" " + name` |
| DeckEntries.PaddedKeyIsNotRemoved | main.py:357-370 | a counterexample for an unreadable key: the unfound key "x " is listed as "2× x ", which reads back as "x", so removing that line leaves the deck unchanged |
| DeckEntries.AddRequest | main.py:303-314 | an addition happens exactly when the unstripped quantity text is an integer for `int()` and the extracted name is in the cache or the catalog; it adds that integer, and the found card has the extracted name when both store cards under their own names |
| DeckEntries.AddSearchResult | main.py:303-317 | for a card whose name reads back from its search line and which the search cached under its name, the cached card of that name is added with the typed quantity, whatever the catalog returns |
| DeckEntries.CacheAll | main.py:217-218 | caching the search results keeps every card stored under its own name |
| DeckEntries.CachedResults | main.py:217-218 | after caching, every search result can be found in the cache under its name |
| DeckEntries.CacheUnderOwnName | main.py:242 | storing a card under its own name keeps every cached card under its own name |
| DeckEntries.DeckBuilder.constructor | main.py:32-36 | a new window has no deck and an empty card cache, so every cached card is stored under its own name |
| DeckEntries.DeckBuilder.PerformSearch | main.py:206-225 | a blank query does nothing; no results give the line "(no results)"; otherwise every result is cached under its name and shown as its search line, in order; every cached card stays stored under its own name |
| DeckEntries.DeckBuilder.RefreshDeckList | main.py:379-393 | no deck gives no lines; otherwise one line per entry in the deck's order, showing what the lookup found, with each found card cached; every cached card stays stored under its own name |
| DeckEntries.DeckBuilder.OnResultSelect | main.py:230-243 | the card named by the selected search line is looked up, cached under its name when found, and returned for preview; every cached card stays stored under its own name |
| DeckEntries.DeckBuilder.OnDeckSelect | main.py:325-344 | with a deck and a line holding "×", the card named after it is looked up and cached when found; otherwise nothing changes; every cached card stays stored under its own name |
| DeckEntries.DeckBuilder.RemoveSelected | main.py:349-370 | without a deck, a selection, a "×" or an integer quantity the deck is unchanged; otherwise the parsed quantity of the parsed name is removed; every cached card stays stored under its own name |
| DeckEntries.DeckBuilder.AddCardToDeck | main.py:293-317 | without a deck, a selection, an integer quantity or a found card nothing changes; otherwise the card is cached and the quantity added under the card's own name; every cached card stays stored under its own name |
| UpdateChecker.LStrip | update_checker.py:25 | `lstrip("v")` removes exactly the leading run of `v`s, so the result does not start with `v` |
| UpdateChecker.ToTuple | update_checker.py:29-31 | `to_tuple` has at most one number per dot-separated component; a version without a dot is one number if it is all digits and the empty tuple otherwise |
| UpdateChecker.ToTupleRoundTrip | update_checker.py:29-31 | `to_tuple` of the dotted decimal rendering of a tuple gives that tuple back |
| UpdateChecker.DropsNonDigitComponent | update_checker.py:29-31 | a component that is not all digits is dropped: `to_tuple("1.2.beta") == to_tuple("1.2")` |
| UpdateChecker.AppendsDigitComponent | update_checker.py:29-31 | an all-digit component is kept in order as its integer value |
| UpdateChecker.TupleLess | update_checker.py:34 | a tuple is never less than itself, and a proper prefix is less than the longer tuple |
| UpdateChecker.TupleLessIff | update_checker.py:34 | the tuple order is lexicographic with a proper prefix first: some common prefix is followed by the end of the smaller tuple or a smaller element |
| UpdateChecker.TupleLessIrreflexive | update_checker.py:34 | no version is newer than itself |
| UpdateChecker.TupleLessAsymmetric | update_checker.py:34 | two versions are never each newer than the other |
| UpdateChecker.TupleLessTransitive | update_checker.py:34 | the order is transitive |
| UpdateChecker.TupleLessTotal | update_checker.py:34 | of two different tuples one is greater |
| UpdateChecker.ProperPrefixIsLess | update_checker.py:34 | a proper prefix is smaller |
| UpdateChecker.ShortVersionIsOlder | update_checker.py:34 | "1.2" is older than "1.2.0" |
| UpdateChecker.RemoteVersion | update_checker.py:24-27 | a missing tag reads as "", a `null` tag stops the check, and a present tag is its text with all its leading `v`s removed (`LStrip`), so the result does not start with `v` |
| UpdateChecker.OfferUpdate | update_checker.py:21-34 | the prompt appears exactly when the request succeeded, the tag was readable and the remote tuple is greater than the local one |
| UpdateChecker.ReleasePage | update_checker.py:42-44 | the page opened is `html_url`, or the repository's latest-release page when that member is absent |
| UpdateChecker.CheckForUpdates | update_checker.py:21-46 | a page is opened exactly when the prompt appears and the user answers yes, and it is the release page |
| UpdateChecker.FailedFetchOffersNothing | update_checker.py:26-27 | a network or JSON failure returns before any comparison, and nothing is offered |
| UpdateChecker.SameVersionNotOffered | update_checker.py:25-34 | a release whose tag, leading `v`s removed, equals the local version is never offered |
| UpdateChecker.PrefixedTagNotOffered | update_checker.py:25-34 | for a local version that does not start with `v` (as versioning.py's "MAJOR.MINOR.build" never does), the tag "v" + the local version is not offered |
| UpdateChecker.TagOfferIff | update_checker.py:25-34 | a release with a present tag is offered exactly when the tuple of the tag, leading `v`s removed, is greater than the local tuple |
| UpdateChecker.NewerReleaseOffered | update_checker.py:25-34 | a tag whose tuple, after its leading `v`s are removed, is greater than the local one is offered, whatever `v`s it starts with |
| UpdateChecker.LastElementDecides | update_checker.py:34 | tuples that agree up to their last element compare as those elements do |
| UpdateChecker.NewerLastComponent | update_checker.py:29-34 | of two versions that differ only in an all-digit last component, the one with the greater component is newer |
| UpdateChecker.PrefixedNewerTagOffered | update_checker.py:18-34 | the release "v1.2.61" is offered to the local version "1.2.60" |

## Left out

- The tkinter window, its widgets, dialogs, labels and the card preview are not modelled. A selection arrives as the selected line's text, and the quantity as the spin box's text.
- Card images are not modelled: their download and resizing are network and image-library work.
- `mtg_api.py` is not part of this model. Its lookup by name is the `catalog` map, and its search results are an input sequence of cards. The SQLite cache is not modelled.
- `deck_manager.py` and `collection_manager.py` are not part of this model: they only read and write files. The deck's serialised form is `Deck.to_dict`/`Deck.from_dict`.
- `load_match_history`/`save_match_history` are JSON file I/O. `RecordManualResult` models the in-memory append between them.
- `versioning.py` is not part of this model: it runs git and formats a string. Its output is just a `localVersion` string.
- The randomness of `random.sample` is not modelled. A draw is any set of `hand_size` distinct positions, and no probability is claimed.
- The request, JSON decoding, yes/no dialog and browser of `check_for_updates` are not modelled. Their outcomes are parameters.
- BattleSimulator.SimulateHand: `hand_size` is a natural number. A negative `hand_size`, which makes `random.sample` raise, is not modelled.
- BattleSimulator.SimulateMatch: each deck's per-iteration draws are inputs. A draw is only required to be a sample when that deck holds at least seven cards.
- UpdateChecker.ToTuple: `str.isdigit` and `int` are modelled for ASCII digits only, so a component with any other digit is dropped. Python differs in two ways. A Unicode decimal digit such as a fullwidth "１" passes `isdigit` and `int` reads it, so `to_tuple("１.２")` is `(1, 2)`, while the model gives the empty tuple. A digit that is not decimal, such as "²", passes `isdigit` and makes `int` raise; the error is caught and no prompt appears, while the model drops that component.
- PyText.ParseInt: `int()` is modelled for ASCII digits in base 10. Other Unicode decimal digits are not modelled. Python's limit on decimal conversion is not modelled either: `int()` of text with more than 4300 digits, and `str()` of such an integer (`PyText.IntToString`), raise `ValueError`, while the model converts any length.
- UpdateChecker.RemoteVersion: a `tag_name` that is present but neither a string nor `null` is not modelled. Nor is an `html_url` that is `null`. The JSON is taken to be an object.
- Models.FromScryfallJson: a key that is present with the value `null` is not modelled; `CardJson` only tells present from absent. In Python, a `null` required key gives a field of None with no `KeyError`. A `null` `image_uris` raises `AttributeError` at models.py:28, and a `null` `colors` gives None instead of the empty list.
- DeckEntries.LookupsMatchNames assumes that the catalog returns each card under the name asked for. The code does not guarantee this: mtg_api.py:35 looks names up in lower case, so a deck key "lightning bolt" comes back as the card "Lightning Bolt". Without the assumption only the cache half holds, and `LookupCacheNamesMatch` proves that half.
- DeckEntries.ListedEntriesParse makes the same assumption. For a key that the lookup renames, the line shows the card's name, not the key, so it parses back to a different name. It also requires every deck key to be readable: no surrounding whitespace and no trailing "⚠". A key such as "Island " that the lookup does not find is listed as "1× Island ", which parses back to "Island". Such a key can come from a hand-edited deck file.
- DeckEntries.RemoveListedEntryDeletesCard makes the same assumption. For a key that the lookup renames, removing its line removes nothing; `RenamedEntryIsNotRemoved` shows such a case. It also requires every deck key to be readable, as `ListedEntriesParse` does. For an unfound key with surrounding whitespace, removing its line removes nothing; `PaddedKeyIsNotRemoved` shows such a case.
- Models.Deck.FromDict: `data["name"]` and `data["cards"]` raise `KeyError` when the key is absent (models.py:58-59). `DeckDict` always has both fields, so that error path is not modelled.
- Models.Deck.FromDict: the deck shares the loaded dict rather than copying it. A Dafny value map cannot be aliased, so later changes through the loaded dict are not modelled.
- Models.Deck.AddCard: a negative or zero quantity is allowed, as in the code. Only `q >= 1` keeps the positivity invariant, and `AddNonPositiveBreaksPositive` shows why.
- DeckEntries.DeckBuilder.RefreshDeckList: the model does the lookups in one loop and then formats the lines. The code formats each line inside the same loop. Formatting neither reads nor changes the cache, so the lines and the cache are the same.
- DeckEntries.DeckBuilder.RemoveSelected and AddCardToDeck: the deck label update and the redraw of the deck list that follow are not modelled here. The redraw is `RefreshDeckList`.
- The deck auto-builder, land allocation and archetype recommender appear in no source file and are not modelled.
