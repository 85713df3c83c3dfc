/**
 * The string rules of main.py: which cards are lands, how a deck entry is
 * shown in the deck list and read back from it, how a card name is read back
 * from a search-result line, and the callbacks of the deck-builder window
 * that use them on the current deck and the card cache.
 *
 * Looking a card up by name (`get_card_by_name`, a database and network call)
 * is modelled as a `catalog` map from name to card: a name it does not hold
 * is a failed lookup. Widgets, dialogs and previews are not modelled; a
 * callback's selection arrives as the selected line's text.
 */
module DeckEntries {
  import opened Wrappers
  import opened PyText
  import opened Models

  /** "×", between the quantity and the name of a deck entry. */
  const Times: char := '\U{D7}'

  /** "⚠", the duplicate warning at the end of a deck entry. */
  const WarningSign: char := '\U{26A0}'

  /** "  •  ", between the fields of a search-result line. */
  const Separator: string := "  \U{2022}  "

  // ---------------------------------------------------------------------------
  // Lands and the deck-list entry
  // ---------------------------------------------------------------------------

  /** `is_land(card)`: "Land" occurs somewhere in the type line. */
  predicate IsLand(card: Card): (r: bool)
    ensures r <==> Find(card.typeLine, "Land").Some?
  {
    Contains(card.typeLine, "Land")
  }

  /** Any type line with "Land" in it marks a land, wherever it stands. */
  lemma LandInTypeLine(card: Card, before: string, after: string)
    requires card.typeLine == before + "Land" + after
    ensures IsLand(card)
  {
    assert OccursAt(card.typeLine, "Land", |before|) by {
      assert card.typeLine[|before|..|before| + 4] == "Land";
    }
  }

  predicate EndsWithWarning(s: string) {
    s != [] && s[|s| - 1] == WarningSign
  }

  /** " ⚠" after more than one copy of a card that is not a land. */
  function Flag(qty: int, card: Card): (r: string)
    ensures r == "" || r == [' ', WarningSign]
    ensures r != "" <==> qty > 1 && !IsLand(card)
  {
    if qty > 1 && !IsLand(card) then [' ', WarningSign] else ""
  }

  /**
   * The line `_refresh_deck_list` shows for the entry `name: qty`, given what
   * looking `name` up found: the found card's name and the flag, or the
   * entry's own name and no flag.
   */
  function FormatEntry(name: string, qty: int, card: Option<Card>): (line: string)
    ensures |line| > |IntToString(qty)| + 1
    ensures line[..|IntToString(qty)|] == IntToString(qty) && line[|IntToString(qty)|] == Times
  {
    match card
    case Some(c) => IntToString(qty) + [Times, ' '] + c.name + Flag(qty, c)
    case None => IntToString(qty) + [Times, ' '] + name
  }

  /** The name a deck entry's line shows. */
  function ShownName(name: string, card: Option<Card>): string {
    if card.Some? then card.value.name else name
  }

  /** A name that the deck list shows and reads back unchanged. */
  predicate ReadableName(name: string) {
    NoSurroundingSpace(name) && !EndsWithWarning(name)
  }

  /** The position of the first `c` in `s`. */
  function FindChar(s: string, c: char): (r: Option<nat>)
    ensures r.None? <==> c !in s
    ensures r.Some? ==> r.value < |s| && s[r.value] == c && c !in s[..r.value]
  {
    if s == [] then None
    else if s[0] == c then Some(0)
    else
      var r := FindChar(s[1..], c);
      assert s == [s[0]] + s[1..];
      if r.None? then None
      else
        assert s[..r.value + 1] == [s[0]] + s[1..][..r.value];
        Some(r.value + 1)
  }

  /** `entry.split("×", 1)` when it gives two parts: the text before and after the first "×". */
  function SplitAtTimes(entry: string): (r: Option<(string, string)>)
    ensures r.None? <==> Times !in entry
    ensures r.Some? ==> entry == r.value.0 + [Times] + r.value.1 && Times !in r.value.0
  {
    match FindChar(entry, Times)
    case None => None
    case Some(i) =>
      assert entry == entry[..i] + [Times] + entry[i + 1..];
      Some((entry[..i], entry[i + 1..]))
  }

  /** The name part of an entry: stripped, then a trailing "⚠" dropped and stripped again. */
  function EntryName(rest: string): (n: string)
    ensures NoSurroundingSpace(n)
  {
    var n := Strip(rest);
    if EndsWithWarning(n) then Strip(n[..|n| - 1]) else n
  }

  /**
   * What `remove_selected` reads from a deck-list line: the quantity and the
   * card name, or `None` where it returns without touching the deck (no "×",
   * or no integer before it).
   */
  function ParseEntry(entry: string): (r: Option<(int, string)>)
    ensures Times !in entry ==> r.None?
    ensures r.Some? ==> NoSurroundingSpace(r.value.1)
  {
    match SplitAtTimes(entry)
    case None => None
    case Some((qtyText, rest)) =>
      match ParseInt(Strip(qtyText))
      case None => None
      case Some(qty) => Some((qty, EntryName(rest)))
  }

  /** What `on_deck_select` reads from a deck-list line: the card name only. */
  function EntryCardName(entry: string): (r: Option<string>)
    ensures r.None? <==> Times !in entry
    ensures r.Some? ==> NoSurroundingSpace(r.value)
  {
    match SplitAtTimes(entry)
    case None => None
    case Some((_, rest)) => Some(EntryName(rest))
  }

  /**
   * The line is cut at its first "×": the integer the stripped text before
   * it spells (if it is one) is the quantity and the name comes from the
   * text after it. A line with no "×" gives nothing.
   */
  lemma ParseEntrySplit(before: string, after: string)
    requires Times !in before
    ensures ParseEntry(before + [Times] + after) ==
              if ParseInt(Strip(before)).Some? then Some((ParseInt(Strip(before)).value, EntryName(after))) else None
    ensures EntryCardName(before + [Times] + after) == Some(EntryName(after))
  {
    var entry := before + [Times] + after;
    var r := SplitAtTimes(entry);
    assert Times in entry by {
      assert entry[|before|] == Times;
    }
    var i := FindChar(entry, Times).value;
    assert forall j | 0 <= j < |before| :: entry[j] == before[j];
    assert i >= |before|;
    assert i <= |before| by {
      assert entry[..i + 1][|before|] == Times;
    }
    assert r.value.0 == before && r.value.1 == after;
  }

  lemma ParseEntryNoTimes(entry: string)
    requires Times !in entry
    ensures ParseEntry(entry) == None && EntryCardName(entry) == None
  {
  }

  /** Where both parses succeed they read the same name. */
  lemma EntryParsesAgree(entry: string)
    requires ParseEntry(entry).Some?
    ensures EntryCardName(entry) == Some(ParseEntry(entry).value.1)
  {
  }

  /**
   * The flag is shown exactly for more than one copy of a found card that is
   * not a land; an entry whose card was not found never has it.
   */
  lemma FlagRule(name: string, qty: int, card: Option<Card>)
    requires !EndsWithWarning(ShownName(name, card))
    ensures EndsWithWarning(FormatEntry(name, qty, card)) <==> card.Some? && qty > 1 && !IsLand(card.value)
  {
    var shown := ShownName(name, card);
    var line := FormatEntry(name, qty, card);
    if card.None? || !(qty > 1 && !IsLand(card.value)) {
      assert line == IntToString(qty) + [Times, ' '] + shown;
      if shown == [] {
        assert line[|line| - 1] == ' ';
      } else {
        assert line[|line| - 1] == shown[|shown| - 1];
      }
    }
  }

  /**
   * Reading back a shown entry gives its quantity and the shown name, with
   * or without the flag, for every name without surrounding whitespace that
   * does not itself end in "⚠".
   */
  lemma EntryRoundTrip(name: string, qty: int, card: Option<Card>)
    requires ReadableName(ShownName(name, card))
    ensures ParseEntry(FormatEntry(name, qty, card)) == Some((qty, ShownName(name, card)))
    ensures EntryCardName(FormatEntry(name, qty, card)) == Some(ShownName(name, card))
  {
    var shown := ShownName(name, card);
    var flag := if card.Some? then Flag(qty, card.value) else "";
    var rest := [' '] + shown + flag;
    FormatEntryParts(name, qty, card);
    IntToStringChars(qty);
    assert Times !in IntToString(qty);
    ParseEntrySplit(IntToString(qty), rest);
    IntToStringRoundTrip(qty);
    StripIntToString(qty);
    EntryNameRoundTrip(shown, flag);
  }

  /** A shown entry is the quantity, "×", a space, the shown name and the flag of a found card. */
  lemma FormatEntryParts(name: string, qty: int, card: Option<Card>)
    ensures FormatEntry(name, qty, card)
              == IntToString(qty) + [Times] + ([' '] + ShownName(name, card) + (if card.Some? then Flag(qty, card.value) else ""))
  {
  }

  lemma EntryNameRoundTrip(shown: string, flag: string)
    requires ReadableName(shown)
    requires flag == "" || flag == [' ', WarningSign]
    ensures EntryName([' '] + shown + flag) == shown
  {
    if flag == "" {
      EntryNameUnflagged(shown);
    } else if shown == [] {
      EntryNameFlaggedEmpty();
    } else {
      EntryNameFlagged(shown);
    }
  }

  lemma EntryNameUnflagged(shown: string)
    requires ReadableName(shown)
    ensures EntryName([' '] + shown + "") == shown
  {
    assert [' '] + shown + "" == [' '] + shown + [];
    StripPadded([' '], shown, []);
  }

  lemma EntryNameFlaggedEmpty()
    ensures EntryName([' '] + [] + [' ', WarningSign]) == []
  {
    var n := [WarningSign];
    assert [' '] + [] + [' ', WarningSign] == [' ', ' '] + n + [];
    StripPadded([' ', ' '], n, []);
    assert n[..|n| - 1] == [] + [] + [];
    StripPadded([], [], []);
  }

  lemma EntryNameFlagged(shown: string)
    requires ReadableName(shown) && shown != []
    ensures EntryName([' '] + shown + [' ', WarningSign]) == shown
  {
    var n := shown + [' ', WarningSign];
    assert [' '] + shown + [' ', WarningSign] == [' '] + n + [];
    StripPadded([' '], n, []);
    assert n[..|n| - 1] == [] + shown + [' '];
    StripPadded([], shown, [' ']);
  }

  // ---------------------------------------------------------------------------
  // Search-result lines
  // ---------------------------------------------------------------------------

  /** `card.mana_cost or ''`. */
  function ManaText(manaCost: Option<string>): string {
    if manaCost.Some? then manaCost.value else ""
  }

  /** The line `perform_search` shows for a card. */
  function SearchLine(card: Card): (line: string)
    ensures |line| > |card.name| && line[..|card.name|] == card.name && OccursAt(line, Separator, |card.name|)
  {
    card.name + Separator + ManaText(card.manaCost) + Separator + card.typeLine + "  [" + card.rarity + "]"
  }

  /** `display.split("  •  ")[0].strip()`: the stripped text before the first separator. */
  function ExtractName(line: string): (n: string)
    ensures NoSurroundingSpace(n)
  {
    match Find(line, Separator)
    case None => Strip(line)
    case Some(i) => Strip(line[..i])
  }

  predicate EndsWith(s: string, suffix: string) {
    |suffix| <= |s| && s[|s| - |suffix|..] == suffix
  }

  /**
   * A card name is read back from its search-result line when it has no
   * surrounding whitespace, does not contain the separator, and does not end
   * in "  •" (which the separator after it would complete).
   */
  lemma SearchLineRoundTrip(card: Card)
    requires NoSurroundingSpace(card.name)
    requires !Contains(card.name, Separator)
    requires !EndsWith(card.name, "  \U{2022}")
    ensures ExtractName(SearchLine(card)) == card.name
  {
    var name := card.name;
    var tail := ManaText(card.manaCost) + Separator + card.typeLine + "  [" + card.rarity + "]";
    var line := name + Separator + tail;
    assert SearchLine(card) == line;
    forall i | 0 <= i < |name| ensures !OccursAt(line, Separator, i) {
      NoSeparatorInName(name, tail, i);
    }
    FindAfterPrefix(name, Separator, tail);
    assert line[..|name|] == [] + name + [];
    StripPadded([], name, []);
  }

  /** No separator starts inside such a name, even one that runs on into the separator after it. */
  lemma NoSeparatorInName(name: string, tail: string, i: nat)
    requires NoSurroundingSpace(name)
    requires !Contains(name, Separator)
    requires !EndsWith(name, "  \U{2022}")
    requires i < |name|
    ensures !OccursAt(name + Separator + tail, Separator, i)
  {
    var line := name + Separator + tail;
    if i + |Separator| <= |name| {
      assert line[i..i + |Separator|] == name[i..i + |Separator|];
      assert !OccursAt(name, Separator, i);
    } else if i + |Separator| <= |line| {
      var k := |name| - i;
      var w := line[i..i + |Separator|];
      if k == 3 {
        assert w[..3] == name[|name| - 3..];
        assert Separator[..3] == "  \U{2022}";
        assert w[..3] != Separator[..3];
      } else {
        assert w[k - 1] == name[|name| - 1];
        assert Separator[k - 1] == ' ';
        assert w[k - 1] != Separator[k - 1];
      }
    }
  }

  /** The extra condition is needed: a name ending in "  •" loses that ending. */
  lemma SearchLineCutsBulletEnding(card: Card)
    requires card.name == "X  \U{2022}"
    ensures ExtractName(SearchLine(card)) == "X"
  {
    var line := SearchLine(card);
    var head := card.name + Separator;
    assert OccursAt(line, Separator, 1) by {
      assert line[..|head|] == head;
      assert head[1..6] == Separator;
      assert line[1..6] == head[1..6];
    }
    assert !OccursAt(line, Separator, 0) by {
      assert line[0] == 'X';
    }
    assert Find(line, Separator) == Some(1);
    assert line[..1] == [] + "X" + [];
    StripPadded([], "X", []);
  }

  // ---------------------------------------------------------------------------
  // The window's deck and card cache
  // ---------------------------------------------------------------------------

  /** Every card is stored under its own name. */
  ghost predicate NamesMatch(cards: map<string, Card>) {
    forall k | k in cards :: cards[k].name == k
  }

  /** `self.card_cache.get(name) or get_card_by_name(name)`. */
  function LookupIn(cache: map<string, Card>, catalog: map<string, Card>, name: string): (r: Option<Card>)
    ensures name in cache ==> r == Some(cache[name])
    ensures name !in cache && name in catalog ==> r == Some(catalog[name])
    ensures r.None? <==> name !in cache && name !in catalog
    ensures NamesMatch(cache) && NamesMatch(catalog) && r.Some? ==> r.value.name == name
  {
    if name in cache then Some(cache[name])
    else if name in catalog then Some(catalog[name])
    else None
  }

  /** What looking up some deck entries found, in order, and the card cache afterwards. */
  datatype Lookups = Lookups(found: seq<Option<Card>>, cache: map<string, Card>)

  /**
   * The lookups of `_refresh_deck_list` over the entries `keys`, in order:
   * each entry's card is looked up and a found card is cached under its name.
   */
  function LookupAll(keys: seq<string>, cache: map<string, Card>, catalog: map<string, Card>): (r: Lookups)
    ensures |r.found| == |keys|
    ensures cache.Keys <= r.cache.Keys
    ensures forall i | 0 <= i < |keys| :: r.found[i].Some? ==> r.found[i].value.name in r.cache
  {
    if keys == [] then Lookups([], cache)
    else
      var before := LookupAll(keys[..|keys| - 1], cache, catalog);
      var card := LookupIn(before.cache, catalog, keys[|keys| - 1]);
      Lookups(before.found + [card], if card.Some? then before.cache[card.value.name := card.value] else before.cache)
  }

  /** The deck list: one line per entry, showing the entry with what its lookup found. */
  function DeckLines(keys: seq<string>, qty: map<string, int>, found: seq<Option<Card>>): (lines: seq<string>)
    requires forall k | k in keys :: k in qty
    requires |found| == |keys|
    ensures |lines| == |keys|
    ensures forall i | 0 <= i < |keys| :: Times in lines[i]
  {
    seq(|keys|, i requires 0 <= i < |keys| => FormatEntry(keys[i], qty[keys[i]], found[i]))
  }

  /** Looking up one more entry appends its result and caches what it found. */
  lemma LookupAllSnoc(keys: seq<string>, cache: map<string, Card>, catalog: map<string, Card>, i: nat)
    requires i < |keys|
    ensures var before := LookupAll(keys[..i], cache, catalog);
            var card := LookupIn(before.cache, catalog, keys[i]);
            LookupAll(keys[..i + 1], cache, catalog)
              == Lookups(before.found + [card], if card.Some? then before.cache[card.value.name := card.value] else before.cache)
  {
    assert keys[..i + 1][..i] == keys[..i];
  }

  /** Refreshing caches every found card under its own name, whatever the catalog holds. */
  lemma {:induction false} LookupCacheNamesMatch(keys: seq<string>, cache: map<string, Card>, catalog: map<string, Card>)
    requires NamesMatch(cache)
    ensures NamesMatch(LookupAll(keys, cache, catalog).cache)
  {
    if keys != [] {
      LookupCacheNamesMatch(keys[..|keys| - 1], cache, catalog);
    }
  }

  /**
   * When the catalog returns cards under the name asked for (and the cache
   * holds every card under its own name), every entry that is found is found
   * as a card of the entry's own name.
   */
  lemma {:induction false} LookupsMatchNames(keys: seq<string>, cache: map<string, Card>, catalog: map<string, Card>)
    requires NamesMatch(cache) && NamesMatch(catalog)
    ensures forall i | 0 <= i < |keys| ::
              LookupAll(keys, cache, catalog).found[i].Some? ==> LookupAll(keys, cache, catalog).found[i].value.name == keys[i]
  {
    if keys != [] {
      var init := keys[..|keys| - 1];
      LookupsMatchNames(init, cache, catalog);
      LookupCacheNamesMatch(init, cache, catalog);
      var before := LookupAll(init, cache, catalog);
      var after := LookupAll(keys, cache, catalog);
      forall i | 0 <= i < |init| && after.found[i].Some? ensures after.found[i].value.name == keys[i] {
        assert after.found[i] == before.found[i] && keys[i] == init[i];
      }
    }
  }

  /**
   * When the cache and the catalog hold every card under its own name, each
   * line of the deck list reads back as its entry's quantity and name.
   */
  lemma ListedEntriesParse(keys: seq<string>, qty: map<string, int>, cache: map<string, Card>, catalog: map<string, Card>)
    requires forall k | k in keys :: k in qty && ReadableName(k)
    requires NamesMatch(cache) && NamesMatch(catalog)
    ensures forall i | 0 <= i < |keys| ::
              ParseEntry(DeckLines(keys, qty, LookupAll(keys, cache, catalog).found)[i]) == Some((qty[keys[i]], keys[i]))
  {
    var found := LookupAll(keys, cache, catalog).found;
    LookupsMatchNames(keys, cache, catalog);
    forall i | 0 <= i < |keys| ensures ParseEntry(DeckLines(keys, qty, found)[i]) == Some((qty[keys[i]], keys[i])) {
      assert keys[i] in keys;
      EntryRoundTrip(keys[i], qty[keys[i]], found[i]);
    }
  }

  /** The deck after `remove_selected` with a selected line (or none). */
  function AfterRemoveSelected(c: CardCounts, selected: Option<string>): (r: CardCounts)
    requires c.Valid()
    ensures r.Valid() && r.qty.Keys <= c.qty.Keys
    ensures selected.None? || Times !in selected.value ==> r == c
    ensures selected.Some? && ParseEntry(selected.value).None? ==> r == c
    ensures selected.Some? && ParseEntry(selected.value).Some? ==>
              r == AfterRemove(c, ParseEntry(selected.value).value.1, ParseEntry(selected.value).value.0)
    ensures c.AllPositive() ==> r.AllPositive()
  {
    if selected.None? then c
    else match ParseEntry(selected.value)
      case None => c
      case Some((qty, name)) =>
        RemoveEntry(c, name, qty);
        assert c.AllPositive() ==> AfterRemove(c, name, qty).AllPositive() by {
          if c.AllPositive() {
            RemoveKeepsPositive(c, name, qty);
          }
        }
        AfterRemove(c, name, qty)
  }

  /**
   * Removing a line of the deck list takes that entry's card out of the deck
   * altogether: the parsed quantity is the stored one.
   */
  lemma RemoveListedEntryDeletesCard(c: CardCounts, cache: map<string, Card>, catalog: map<string, Card>, i: nat)
    requires c.Valid() && i < |c.keys|
    requires forall k | k in c.keys :: ReadableName(k)
    requires NamesMatch(cache) && NamesMatch(catalog)
    ensures c.keys[i] !in AfterRemoveSelected(c, Some(DeckLines(c.keys, c.qty, LookupAll(c.keys, cache, catalog).found)[i])).qty
    ensures forall k | k != c.keys[i] ::
              AfterRemoveSelected(c, Some(DeckLines(c.keys, c.qty, LookupAll(c.keys, cache, catalog).found)[i])).Get(k) == c.Get(k)
    ensures AfterRemoveSelected(c, Some(DeckLines(c.keys, c.qty, LookupAll(c.keys, cache, catalog).found)[i])).Total()
              == c.Total() - c.qty[c.keys[i]]
  {
    ListedEntriesParse(c.keys, c.qty, cache, catalog);
    RemoveAllDeletes(c, c.keys[i]);
  }

  /**
   * Without that condition on the catalog, removal can miss: a deck entry
   * "x" whose lookup returns the card "X" is listed as "X", and removing
   * that line removes "X", which the deck does not hold.
   */
  lemma RenamedEntryIsNotRemoved(card: Card, c: CardCounts, catalog: map<string, Card>)
    requires card.name == "X" && catalog == map["x" := card]
    requires c == CardCounts(["x"], map["x" := 2])
    ensures c.Valid()
    ensures ParseEntry(DeckLines(c.keys, c.qty, LookupAll(c.keys, map[], catalog).found)[0]) == Some((2, "X"))
    ensures AfterRemoveSelected(c, Some(DeckLines(c.keys, c.qty, LookupAll(c.keys, map[], catalog).found)[0])) == c
  {
    RenamedKeyLine(card, c, catalog);
    EntryRoundTrip("x", 2, Some(card));
    RemoveAbsentIsNoop(c, "X", 2);
  }

  /** The deck {"x": 2}, whose lookup finds the card "X", lists the one line for "X". */
  lemma RenamedKeyLine(card: Card, c: CardCounts, catalog: map<string, Card>)
    requires card.name == "X" && catalog == map["x" := card]
    requires c == CardCounts(["x"], map["x" := 2])
    ensures c.Valid() && "X" !in c.qty
    ensures DeckLines(c.keys, c.qty, LookupAll(c.keys, map[], catalog).found)[0] == FormatEntry("x", 2, Some(card))
  {
    assert LookupAll(c.keys, map[], catalog).found == [Some(card)] by {
      assert c.keys[..0] == [];
    }
  }

  /** The line of a deck key the lookup does not find parses back to its quantity and the key as `EntryName` reads it. */
  lemma UnfoundLineParses(name: string, qty: int)
    ensures ParseEntry(FormatEntry(name, qty, None)) == Some((qty, EntryName([' '] + name)))
  {
    FormatEntryParts(name, qty, None);
    assert [' '] + ShownName(name, None) + "" == [' '] + name;
    IntToStringChars(qty);
    ParseEntrySplit(IntToString(qty), [' '] + name);
    IntToStringRoundTrip(qty);
    StripIntToString(qty);
  }

  /** The text " x " reads back as the name "x". */
  lemma PaddedNameReadsStripped()
    ensures EntryName([' '] + "x ") == "x"
  {
    assert [' '] + "x " == [' '] + "x" + [' '];
    StripPadded([' '], "x", [' ']);
  }

  /**
   * Removal can miss for an unreadable key as well: a deck entry "x " that
   * the lookup does not find is listed as "2× x ", whose name reads back as
   * "x", which the deck does not hold.
   */
  lemma PaddedKeyIsNotRemoved(c: CardCounts)
    requires c == CardCounts(["x "], map["x " := 2])
    ensures c.Valid()
    ensures ParseEntry(DeckLines(c.keys, c.qty, LookupAll(c.keys, map[], map[]).found)[0]) == Some((2, "x"))
    ensures AfterRemoveSelected(c, Some(DeckLines(c.keys, c.qty, LookupAll(c.keys, map[], map[]).found)[0])) == c
  {
    PaddedKeyLine(c);
    UnfoundLineParses("x ", 2);
    PaddedNameReadsStripped();
    RemoveAbsentIsNoop(c, "x", 2);
  }

  /** The deck {"x ": 2}, with nothing found, lists the one line for "x " unflagged. */
  lemma PaddedKeyLine(c: CardCounts)
    requires c == CardCounts(["x "], map["x " := 2])
    ensures c.Valid() && "x" !in c.qty
    ensures DeckLines(c.keys, c.qty, LookupAll(c.keys, map[], map[]).found)[0] == FormatEntry("x ", 2, None)
  {
    assert LookupAll(c.keys, map[], map[]).found == [None] by {
      assert c.keys[..0] == [];
    }
  }

  /** Caching a card under its own name keeps every cached card under its own name. */
  lemma CacheUnderOwnName(cache: map<string, Card>, card: Card)
    requires NamesMatch(cache)
    ensures NamesMatch(cache[card.name := card])
  {
  }

  /**
   * What `add_card_to_deck` adds for a selected search line and quantity
   * text: the looked-up card and the quantity, or `None` where it stops
   * (the quantity is not an integer, or the lookup finds nothing).
   */
  function AddRequest(line: string, qtyText: string, cache: map<string, Card>, catalog: map<string, Card>)
    : (r: Option<(Card, int)>)
    ensures r.Some? <==> ParseInt(qtyText).Some? && (ExtractName(line) in cache || ExtractName(line) in catalog)
    ensures r.Some? ==> r.value.1 == ParseInt(qtyText).value
    ensures r.Some? && NamesMatch(cache) && NamesMatch(catalog) ==> r.value.0.name == ExtractName(line)
  {
    var name := ExtractName(line);
    match ParseInt(qtyText)
    case None => None
    case Some(qty) =>
      match LookupIn(cache, catalog, name)
      case None => None
      case Some(card) => Some((card, qty))
  }

  /**
   * Adding a search result whose name reads back from its line adds that
   * card, under its own name, with the typed quantity.
   */
  lemma AddSearchResult(card: Card, qtyText: string, cache: map<string, Card>, catalog: map<string, Card>)
    requires NoSurroundingSpace(card.name) && !Contains(card.name, Separator) && !EndsWith(card.name, "  \U{2022}")
    requires NamesMatch(cache) && card.name in cache
    requires ParseInt(qtyText).Some?
    ensures AddRequest(SearchLine(card), qtyText, cache, catalog).Some?
    ensures AddRequest(SearchLine(card), qtyText, cache, catalog).value.0 == cache[card.name]
    ensures AddRequest(SearchLine(card), qtyText, cache, catalog).value.0.name == card.name
    ensures AddRequest(SearchLine(card), qtyText, cache, catalog).value.1 == ParseInt(qtyText).value
  {
    SearchLineRoundTrip(card);
    var found := LookupIn(cache, catalog, card.name);
    assert AddRequest(SearchLine(card), qtyText, cache, catalog) == Some((found.value, ParseInt(qtyText).value));
  }

  /** `card_cache[card.name] = card` for each search result, in order. */
  function CacheAll(cache: map<string, Card>, results: seq<Card>): (r: map<string, Card>)
    ensures NamesMatch(cache) ==> NamesMatch(r)
  {
    if results == [] then cache
    else
      var r := CacheAll(cache, results[..|results| - 1]);
      r[results[|results| - 1].name := results[|results| - 1]]
  }

  /** After the search every result can be found in the cache under its name. */
  lemma {:induction false} CachedResults(cache: map<string, Card>, results: seq<Card>)
    ensures forall c | c in results :: c.name in CacheAll(cache, results)
  {
    if results != [] {
      var init := results[..|results| - 1];
      CachedResults(cache, init);
      forall c | c in results ensures c.name in CacheAll(cache, results) {
        if c != results[|results| - 1] {
          assert c in init;
        }
      }
    }
  }

  lemma CacheAllSnoc(cache: map<string, Card>, results: seq<Card>, i: nat)
    requires i < |results|
    ensures CacheAll(cache, results[..i + 1]) == CacheAll(cache, results[..i])[results[i].name := results[i]]
  {
    assert results[..i + 1][..i] == results[..i];
  }

  /** The main window's state that the deck callbacks read and change. */
  class DeckBuilder {
    var currentDeck: Deck?
    var cardCache: map<string, Card>

    /** The cache invariant: every cached card is stored under its own name. */
    ghost predicate Valid()
      reads this
    {
      NamesMatch(cardCache)
    }

    /** `__init__`: no deck loaded yet and an empty card cache. */
    constructor()
      ensures currentDeck == null && cardCache == map[] && Valid()
    {
      currentDeck := null;
      cardCache := map[];
    }

    /**
     * `perform_search` with `results` standing for what the catalog search
     * returns: nothing happens for a blank query; otherwise the results are
     * cached by name and shown one line each, or "(no results)".
     */
    method PerformSearch(query: string, results: seq<Card>) returns (shown: Option<seq<string>>)
      requires Valid()
      modifies this`cardCache
      ensures Valid()
      ensures Strip(query) == [] ==> shown == None && cardCache == old(cardCache)
      ensures Strip(query) != [] && results == [] ==> shown == Some(["(no results)"]) && cardCache == old(cardCache)
      ensures Strip(query) != [] && results != [] ==>
                cardCache == CacheAll(old(cardCache), results)
                && shown.Some? && |shown.value| == |results|
                && forall i | 0 <= i < |results| :: shown.value[i] == SearchLine(results[i])
    {
      if Strip(query) == [] {
        return None;
      }
      if results == [] {
        return Some(["(no results)"]);
      }
      ghost var cache0 := cardCache;
      for i := 0 to |results|
        invariant cardCache == CacheAll(cache0, results[..i])
      {
        CacheAllSnoc(cache0, results, i);
        cardCache := cardCache[results[i].name := results[i]];
      }
      assert results[..|results|] == results;
      shown := Some(seq(|results|, i requires 0 <= i < |results| => SearchLine(results[i])));
    }

    /**
     * `_refresh_deck_list`: no lines without a deck; otherwise one line per
     * entry in the deck's order, looking each card up and caching what is found.
     */
    method RefreshDeckList(catalog: map<string, Card>) returns (lines: seq<string>)
      requires Valid() && (currentDeck != null ==> currentDeck.Valid())
      modifies this`cardCache
      ensures Valid()
      ensures currentDeck == null ==> lines == [] && cardCache == old(cardCache)
      ensures currentDeck != null ==>
                var lookups := LookupAll(currentDeck.cards.keys, old(cardCache), catalog);
                lines == DeckLines(currentDeck.cards.keys, currentDeck.cards.qty, lookups.found) && cardCache == lookups.cache
    {
      lines := [];
      if currentDeck == null {
        return;
      }
      var keys, qty := currentDeck.cards.keys, currentDeck.cards.qty;
      var found := [];
      for i := 0 to |keys|
        invariant LookupAll(keys[..i], old(cardCache), catalog) == Lookups(found, cardCache)
      {
        var name := keys[i];
        var card := LookupIn(cardCache, catalog, name);
        if card.Some? {
          cardCache := cardCache[card.value.name := card.value];
        }
        LookupAllSnoc(keys, old(cardCache), catalog, i);
        found := found + [card];
      }
      assert keys[..|keys|] == keys;
      LookupCacheNamesMatch(keys, old(cardCache), catalog);
      lines := DeckLines(keys, qty, found);
    }

    /**
     * `on_result_select`: the card named by the selected search line is
     * looked up, cached under its name when found, and returned for preview.
     */
    method OnResultSelect(selected: Option<string>, catalog: map<string, Card>) returns (preview: Option<Card>)
      requires Valid()
      modifies this`cardCache
      ensures Valid()
      ensures selected.None? ==> preview == None && cardCache == old(cardCache)
      ensures selected.Some? ==> preview == LookupIn(old(cardCache), catalog, ExtractName(selected.value))
      ensures preview.None? ==> cardCache == old(cardCache)
      ensures preview.Some? ==> cardCache == old(cardCache)[preview.value.name := preview.value]
    {
      preview := None;
      if selected.None? {
        return;
      }
      var cardName := ExtractName(selected.value);
      preview := LookupIn(cardCache, catalog, cardName);
      if preview.Some? {
        CacheUnderOwnName(cardCache, preview.value);
        cardCache := cardCache[preview.value.name := preview.value];
      }
    }

    /**
     * `on_deck_select`: with a deck and a selected line that has a "×", the
     * card named after it is looked up, cached when found, and returned for
     * preview; the deck itself is not touched.
     */
    method OnDeckSelect(selected: Option<string>, catalog: map<string, Card>) returns (preview: Option<Card>)
      requires Valid()
      modifies this`cardCache
      ensures Valid()
      ensures currentDeck == null || selected.None? || EntryCardName(selected.value).None? ==>
                preview == None && cardCache == old(cardCache)
      ensures currentDeck != null && selected.Some? && EntryCardName(selected.value).Some? ==>
                preview == LookupIn(old(cardCache), catalog, EntryCardName(selected.value).value)
      ensures preview.None? ==> cardCache == old(cardCache)
      ensures preview.Some? ==> cardCache == old(cardCache)[preview.value.name := preview.value]
    {
      preview := None;
      if selected.None? || currentDeck == null {
        return;
      }
      var parts := SplitAtTimes(selected.value);
      if parts.None? {
        return;
      }
      var cardName := EntryName(parts.value.1);
      preview := LookupIn(cardCache, catalog, cardName);
      if preview.Some? {
        CacheUnderOwnName(cardCache, preview.value);
        cardCache := cardCache[preview.value.name := preview.value];
      }
    }

    /**
     * `remove_selected`: with a deck and a selected line that parses, the
     * parsed quantity of the parsed name is removed from the deck; otherwise
     * nothing changes.
     */
    method RemoveSelected(selected: Option<string>)
      requires Valid() && (currentDeck != null ==> currentDeck.Valid())
      modifies currentDeck
      ensures Valid()
      ensures currentDeck != null ==> currentDeck.Valid() && currentDeck.name == old(currentDeck.name)
      ensures currentDeck != null ==> currentDeck.cards == AfterRemoveSelected(old(currentDeck.cards), selected)
    {
      if currentDeck == null {
        return;
      }
      if selected.None? {
        return;
      }
      var parsed := ParseEntry(selected.value);
      if parsed.None? {
        return;
      }
      var (qty, cardName) := parsed.value;
      var deck := currentDeck;
      deck.RemoveCard(cardName, qty);
    }

    /**
     * `add_card_to_deck`: with a deck, a selected search line, an integer
     * quantity and a card found under the line's name, the card is cached and
     * the quantity added under the card's name; otherwise nothing changes.
     */
    method AddCardToDeck(selected: Option<string>, qtyText: string, catalog: map<string, Card>)
      requires Valid() && (currentDeck != null ==> currentDeck.Valid())
      modifies this`cardCache, currentDeck
      ensures Valid()
      ensures currentDeck != null ==> currentDeck.Valid() && currentDeck.name == old(currentDeck.name)
      ensures currentDeck == null || selected.None? || AddRequest(selected.value, qtyText, old(cardCache), catalog).None? ==>
                cardCache == old(cardCache) && (currentDeck != null ==> currentDeck.cards == old(currentDeck.cards))
      ensures currentDeck != null && selected.Some? && AddRequest(selected.value, qtyText, old(cardCache), catalog).Some? ==>
                var request := AddRequest(selected.value, qtyText, old(cardCache), catalog).value;
                cardCache == old(cardCache)[request.0.name := request.0]
                && currentDeck.cards == AfterAdd(old(currentDeck.cards), request.0.name, request.1)
    {
      if currentDeck == null {
        return;
      }
      if selected.None? {
        return;
      }
      var cardName := ExtractName(selected.value);
      var qty := ParseInt(qtyText);
      if qty.None? {
        assert AddRequest(selected.value, qtyText, cardCache, catalog) == None;
        return;
      }
      var card := LookupIn(cardCache, catalog, cardName);
      if card.None? {
        assert AddRequest(selected.value, qtyText, cardCache, catalog) == None;
        return;
      }
      assert AddRequest(selected.value, qtyText, cardCache, catalog) == Some((card.value, qty.value));
      CacheUnderOwnName(cardCache, card.value);
      cardCache := cardCache[card.value.name := card.value];
      var deck := currentDeck;
      deck.AddCard(card.value.name, qty.value);
    }
  }
}
