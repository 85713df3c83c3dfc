/**
 * The card record and the deck of models.py.
 *
 * A deck's `cards` is a Python dict from card name to quantity. A Python dict
 * remembers the order in which its keys were first inserted, and that order is
 * observable (the battle simulator flattens the deck in it and the deck list
 * shows it), so the dict is modelled as `CardCounts`: the keys in insertion
 * order plus the map from key to quantity.
 */
module Models {
  import opened Wrappers

  // ---------------------------------------------------------------------------
  // Card
  // ---------------------------------------------------------------------------

  /** A card as the application keeps it (models.py `Card`). */
  datatype Card = Card(
    id: string,
    name: string,
    manaCost: Option<string>,
    typeLine: string,
    oracleText: Option<string>,
    setName: string,
    rarity: string,
    imageUrl: Option<string>,
    colors: seq<string>)

  /**
   * The catalog's JSON object for one card, field by field; a field is `None`
   * when its key is absent from the object.
   */
  datatype CardJson = CardJson(
    id: Option<string>,
    name: Option<string>,
    manaCost: Option<string>,
    typeLine: Option<string>,
    oracleText: Option<string>,
    setName: Option<string>,
    rarity: Option<string>,
    imageUris: Option<map<string, string>>,
    colors: Option<seq<string>>)

  /** The `KeyError` raised for a missing required key, naming the key. */
  datatype KeyError = KeyError(key: string)

  /**
   * `Card.from_scryfall_json`: the required keys are read with `data[...]` in
   * the order id, name, type_line, set_name, rarity, so the first missing one
   * raises; the optional ones fall back to `None`, and colors to the empty list.
   */
  function FromScryfallJson(data: CardJson): (r: Result<Card, KeyError>)
    ensures r.Ok? <==> data.id.Some? && data.name.Some? && data.typeLine.Some?
                       && data.setName.Some? && data.rarity.Some?
    ensures data.id.None? ==> r == Err(KeyError("id"))
    ensures data.id.Some? && data.name.None? ==> r == Err(KeyError("name"))
    ensures data.id.Some? && data.name.Some? && data.typeLine.None? ==> r == Err(KeyError("type_line"))
    ensures data.id.Some? && data.name.Some? && data.typeLine.Some? && data.setName.None? ==>
              r == Err(KeyError("set_name"))
    ensures data.id.Some? && data.name.Some? && data.typeLine.Some? && data.setName.Some? && data.rarity.None? ==>
              r == Err(KeyError("rarity"))
    ensures r.Ok? ==> r.value.id == data.id.value && r.value.name == data.name.value
                      && r.value.typeLine == data.typeLine.value
                      && r.value.setName == data.setName.value
                      && r.value.rarity == data.rarity.value
                      && r.value.manaCost == data.manaCost
                      && r.value.oracleText == data.oracleText
    ensures r.Ok? && data.colors.None? ==> r.value.colors == []
    ensures r.Ok? && data.colors.Some? ==> r.value.colors == data.colors.value
    ensures r.Ok? && (data.imageUris.None? || "normal" !in data.imageUris.value) ==> r.value.imageUrl == None
    ensures r.Ok? && data.imageUris.Some? && "normal" in data.imageUris.value ==>
              r.value.imageUrl == Some(data.imageUris.value["normal"])
  {
    if data.id.None? then Err(KeyError("id"))
    else if data.name.None? then Err(KeyError("name"))
    else if data.typeLine.None? then Err(KeyError("type_line"))
    else if data.setName.None? then Err(KeyError("set_name"))
    else if data.rarity.None? then Err(KeyError("rarity"))
    else
      var uris := if data.imageUris.Some? then data.imageUris.value else map[];
      Ok(Card(
        id := data.id.value,
        name := data.name.value,
        manaCost := data.manaCost,
        typeLine := data.typeLine.value,
        oracleText := data.oracleText,
        setName := data.setName.value,
        rarity := data.rarity.value,
        imageUrl := if "normal" in uris then Some(uris["normal"]) else None,
        colors := if data.colors.Some? then data.colors.value else []))
  }

  // ---------------------------------------------------------------------------
  // The card-name -> quantity dict
  // ---------------------------------------------------------------------------

  predicate NoDuplicates(s: seq<string>) {
    forall i, j | 0 <= i < j < |s| :: s[i] != s[j]
  }

  /** `s` with every occurrence of `x` dropped, the rest in order. */
  function Without(s: seq<string>, x: string): (r: seq<string>)
    ensures forall y :: y in r <==> y in s && y != x
    ensures |r| <= |s|
  {
    if s == [] then []
    else if s[0] == x then Without(s[1..], x)
    else [s[0]] + Without(s[1..], x)
  }

  lemma {:induction false} WithoutNoDuplicates(s: seq<string>, x: string)
    requires NoDuplicates(s)
    ensures NoDuplicates(Without(s, x))
  {
    if s != [] {
      assert NoDuplicates(s[1..]) by {
        forall i, j | 0 <= i < j < |s[1..]| ensures s[1..][i] != s[1..][j] {
          assert s[1..][i] == s[i + 1] && s[1..][j] == s[j + 1];
        }
      }
      WithoutNoDuplicates(s[1..], x);
      if s[0] != x {
        var t := Without(s[1..], x);
        assert s[0] !in s[1..] by {
          forall j | 0 <= j < |s[1..]| ensures s[1..][j] != s[0] {
            assert s[1..][j] == s[j + 1];
          }
        }
        assert s[0] !in t;
        forall i, j | 0 <= i < j < |[s[0]] + t| ensures ([s[0]] + t)[i] != ([s[0]] + t)[j] {
          if i > 0 {
            assert ([s[0]] + t)[i] == t[i - 1] && ([s[0]] + t)[j] == t[j - 1];
          } else {
            assert ([s[0]] + t)[j] == t[j - 1];
          }
        }
      }
    }
  }

  /** Sum of the quantities stored under `keys`, one term per key. */
  function SumOver(keys: seq<string>, qty: map<string, int>): int
    requires forall k | k in keys :: k in qty
  {
    if keys == [] then 0 else qty[keys[0]] + SumOver(keys[1..], qty)
  }

  /** The sum depends only on the quantities stored under `keys`. */
  lemma {:induction false} SumOverFrame(keys: seq<string>, m1: map<string, int>, m2: map<string, int>)
    requires forall k | k in keys :: k in m1 && k in m2 && m1[k] == m2[k]
    ensures SumOver(keys, m1) == SumOver(keys, m2)
  {
    if keys != [] {
      SumOverFrame(keys[1..], m1, m2);
    }
  }

  /** Changing the quantity of one listed key changes the sum by the difference. */
  lemma {:induction false} SumOverUpdate(keys: seq<string>, qty: map<string, int>, n: string, v: int)
    requires NoDuplicates(keys) && n in keys
    requires forall k | k in keys :: k in qty
    ensures SumOver(keys, qty[n := v]) == SumOver(keys, qty) - qty[n] + v
  {
    assert NoDuplicates(keys[1..]) by {
      forall i, j | 0 <= i < j < |keys[1..]| ensures keys[1..][i] != keys[1..][j] {
        assert keys[1..][i] == keys[i + 1] && keys[1..][j] == keys[j + 1];
      }
    }
    if keys[0] == n {
      assert n !in keys[1..] by {
        forall j | 0 <= j < |keys[1..]| ensures keys[1..][j] != n {
          assert keys[1..][j] == keys[j + 1];
        }
      }
      SumOverFrame(keys[1..], qty[n := v], qty);
    } else {
      SumOverUpdate(keys[1..], qty, n, v);
    }
  }

  /** Appending a new key adds its quantity to the sum. */
  lemma {:induction false} SumOverAppend(keys: seq<string>, qty: map<string, int>, n: string, v: int)
    requires n !in keys
    requires forall k | k in keys :: k in qty
    ensures SumOver(keys + [n], qty[n := v]) == SumOver(keys, qty) + v
  {
    if keys == [] {
      assert [] + [n] == [n];
    } else {
      assert (keys + [n])[1..] == keys[1..] + [n];
      SumOverAppend(keys[1..], qty, n, v);
    }
  }

  /** Dropping a listed key removes its quantity from the sum. */
  lemma {:induction false} SumOverWithout(keys: seq<string>, qty: map<string, int>, n: string)
    requires NoDuplicates(keys) && n in keys
    requires forall k | k in keys :: k in qty
    ensures forall k | k in Without(keys, n) :: k in qty - {n}
    ensures SumOver(Without(keys, n), qty - {n}) == SumOver(keys, qty) - qty[n]
  {
    assert NoDuplicates(keys[1..]) by {
      forall i, j | 0 <= i < j < |keys[1..]| ensures keys[1..][i] != keys[1..][j] {
        assert keys[1..][i] == keys[i + 1] && keys[1..][j] == keys[j + 1];
      }
    }
    if keys[0] == n {
      assert n !in keys[1..] by {
        forall j | 0 <= j < |keys[1..]| ensures keys[1..][j] != n {
          assert keys[1..][j] == keys[j + 1];
        }
      }
      assert Without(keys[1..], n) == keys[1..] by {
        WithoutAbsent(keys[1..], n);
      }
      SumOverFrame(keys[1..], qty - {n}, qty);
    } else {
      SumOverWithout(keys[1..], qty, n);
      SumOverFrame([keys[0]], qty - {n}, qty);
    }
  }

  lemma {:induction false} WithoutAbsent(s: seq<string>, x: string)
    requires x !in s
    ensures Without(s, x) == s
  {
    if s != [] {
      WithoutAbsent(s[1..], x);
    }
  }

  /**
   * The value of a `dict[str, int]`: its keys in insertion order and the
   * quantity stored under each.
   */
  datatype CardCounts = CardCounts(keys: seq<string>, qty: map<string, int>) {

    /** The keys are listed once each, and they are exactly the stored keys. */
    ghost predicate Valid() {
      NoDuplicates(keys) && forall k :: k in qty <==> k in keys
    }

    /** `cards.get(name, 0)`. */
    function Get(name: string): int {
      if name in qty then qty[name] else 0
    }

    /** `sum(cards.values())`. */
    function Total(): int
      requires Valid()
    {
      SumOver(keys, qty)
    }

    /** Every stored quantity is at least one: the deck's multiset invariant. */
    ghost predicate AllPositive() {
      forall k | k in qty :: qty[k] > 0
    }

    /**
     * `cards[name] = v`: an existing key keeps its place in the order, a new
     * key goes last; every other entry is unchanged.
     */
    function Set(name: string, v: int): (r: CardCounts)
      requires Valid()
      ensures r.Valid()
      ensures name in r.qty && r.qty[name] == v
      ensures forall k | k != name :: r.Get(k) == Get(k) && (k in r.qty <==> k in qty)
      ensures name in qty ==> r.keys == keys
      ensures name !in qty ==> r.keys == keys + [name]
      ensures r.Total() == Total() - Get(name) + v
    {
      if name in qty then
        SumOverUpdate(keys, qty, name, v);
        CardCounts(keys, qty[name := v])
      else
        SumOverAppend(keys, qty, name, v);
        assert NoDuplicates(keys + [name]) by {
          forall i, j | 0 <= i < j < |keys + [name]|
            ensures (keys + [name])[i] != (keys + [name])[j]
          {
            if j == |keys| {
              assert (keys + [name])[i] == keys[i];
            } else {
              assert (keys + [name])[i] == keys[i] && (keys + [name])[j] == keys[j];
            }
          }
        }
        CardCounts(keys + [name], qty[name := v])
    }

    /**
     * `del cards[name]`: the key disappears from the map and from the order,
     * the other keys keep their order and quantities.
     */
    function Delete(name: string): (r: CardCounts)
      requires Valid() && name in qty
      ensures r.Valid()
      ensures name !in r.qty
      ensures forall k | k != name :: r.Get(k) == Get(k) && (k in r.qty <==> k in qty)
      ensures r.keys == Without(keys, name)
      ensures r.Total() == Total() - qty[name]
    {
      SumOverWithout(keys, qty, name);
      WithoutNoDuplicates(keys, name);
      CardCounts(Without(keys, name), qty - {name})
    }
  }

  /** The empty dict `{}`. */
  const Empty := CardCounts([], map[])

  /** `add_card(name, qty)` on the value of `cards`: a card not yet in the deck goes last. */
  function AfterAdd(c: CardCounts, name: string, q: int): (r: CardCounts)
    requires c.Valid()
    ensures r.Valid()
    ensures r.keys == if name in c.qty then c.keys else c.keys + [name]
  {
    c.Set(name, c.Get(name) + q)
  }

  /**
   * `remove_card(name, qty)` on the value of `cards`: the other cards keep
   * their order, and a deleted card leaves it.
   */
  function AfterRemove(c: CardCounts, name: string, q: int): (r: CardCounts)
    requires c.Valid()
    ensures r.Valid()
    ensures r.keys == if name in c.qty && c.qty[name] - q <= 0 then Without(c.keys, name) else c.keys
  {
    if name !in c.qty then c
    else if c.qty[name] - q > 0 then c.Set(name, c.qty[name] - q)
    else c.Delete(name)
  }

  /** Adding sets the entry to the old quantity (0 if absent) plus `q` and leaves every other entry alone. */
  lemma AddSetsEntry(c: CardCounts, name: string, q: int)
    requires c.Valid()
    ensures AfterAdd(c, name, q).Valid()
    ensures name in AfterAdd(c, name, q).qty
    ensures AfterAdd(c, name, q).qty[name] == (if name in c.qty then c.qty[name] else 0) + q
    ensures forall k | k != name :: k in AfterAdd(c, name, q).qty <==> k in c.qty
    ensures forall k | k != name && k in c.qty :: AfterAdd(c, name, q).qty[k] == c.qty[k]
  {
  }

  /** Adding `q` copies raises the total by exactly `q`. */
  lemma AddTotal(c: CardCounts, name: string, q: int)
    requires c.Valid()
    ensures AfterAdd(c, name, q).Total() == c.Total() + q
  {
  }

  /** Adding keeps every quantity positive when `q` is at least one ... */
  lemma AddKeepsPositive(c: CardCounts, name: string, q: int)
    requires c.Valid() && c.AllPositive() && q >= 1
    ensures AfterAdd(c, name, q).AllPositive()
  {
    var r := AfterAdd(c, name, q);
    forall k | k in r.qty ensures r.qty[k] > 0 {
      if k != name {
        assert r.Get(k) == c.Get(k);
      }
    }
  }

  /** ... and adding a non-positive amount of a new card stores a non-positive quantity. */
  lemma AddNonPositiveBreaksPositive(c: CardCounts, name: string, q: int)
    requires c.Valid() && name !in c.qty && q <= 0
    ensures !AfterAdd(c, name, q).AllPositive()
  {
  }

  /** Removing a card the deck does not hold changes nothing. */
  lemma RemoveAbsentIsNoop(c: CardCounts, name: string, q: int)
    requires c.Valid() && name !in c.qty
    ensures AfterRemove(c, name, q) == c
  {
  }

  /**
   * Removing: if the remainder is positive it is stored, otherwise the key is
   * deleted; either way no zero or negative quantity is stored under `name`,
   * other entries are untouched and no key is added.
   */
  lemma RemoveEntry(c: CardCounts, name: string, q: int)
    requires c.Valid()
    ensures AfterRemove(c, name, q).Valid()
    ensures name in c.qty && c.qty[name] - q > 0 ==>
              name in AfterRemove(c, name, q).qty && AfterRemove(c, name, q).qty[name] == c.qty[name] - q
    ensures name in c.qty && c.qty[name] - q <= 0 ==> name !in AfterRemove(c, name, q).qty
    ensures name in AfterRemove(c, name, q).qty ==> AfterRemove(c, name, q).qty[name] > 0 || name !in c.qty
    ensures AfterRemove(c, name, q).qty.Keys <= c.qty.Keys
    ensures forall k | k != name && k in c.qty :: k in AfterRemove(c, name, q).qty && AfterRemove(c, name, q).qty[k] == c.qty[k]
  {
    var r := AfterRemove(c, name, q);
    forall k | k != name && k in c.qty ensures k in r.qty && r.qty[k] == c.qty[k] {
      assert r.Get(k) == c.Get(k);
    }
  }

  /** Removing preserves the multiset invariant, whatever `q` is. */
  lemma RemoveKeepsPositive(c: CardCounts, name: string, q: int)
    requires c.Valid() && c.AllPositive()
    ensures AfterRemove(c, name, q).AllPositive()
  {
    var r := AfterRemove(c, name, q);
    forall k | k in r.qty ensures r.qty[k] > 0 {
      if k != name {
        assert r.Get(k) == c.Get(k);
      }
    }
  }

  /** Removing lowers the total by what was actually taken away under `name`. */
  lemma RemoveTotal(c: CardCounts, name: string, q: int)
    requires c.Valid()
    ensures AfterRemove(c, name, q).Total() ==
              c.Total() - (if name !in c.qty then 0 else if c.qty[name] - q > 0 then q else c.qty[name])
  {
  }

  /** Removing the whole stored quantity deletes the card. */
  lemma RemoveAllDeletes(c: CardCounts, name: string)
    requires c.Valid() && name in c.qty
    ensures name !in AfterRemove(c, name, c.qty[name]).qty
    ensures AfterRemove(c, name, c.qty[name]).Total() == c.Total() - c.qty[name]
  {
  }

  /** With the multiset invariant, the total is at least the number of distinct cards. */
  lemma {:induction false} TotalAtLeastDistinct(keys: seq<string>, qty: map<string, int>)
    requires forall k | k in keys :: k in qty && qty[k] > 0
    ensures SumOver(keys, qty) >= |keys|
  {
    if keys != [] {
      TotalAtLeastDistinct(keys[1..], qty);
    }
  }

  // ---------------------------------------------------------------------------
  // Deck
  // ---------------------------------------------------------------------------

  /** `Deck.to_dict()`: the JSON object `{"name": ..., "cards": ...}`. */
  datatype DeckDict = DeckDict(name: string, cards: CardCounts)

  /** A named deck whose card dict is changed in place (models.py `Deck`). */
  class Deck {
    var name: string
    var cards: CardCounts

    ghost predicate Valid()
      reads this
    {
      cards.Valid()
    }

    /** `Deck(name=name)`: a deck with no cards. */
    constructor (name: string)
      ensures Valid() && this.name == name && cards == Empty
    {
      this.name := name;
      cards := Empty;
    }

    /**
     * `Deck.from_dict(data)`: a deck with the given name and card dict, so
     * `from_dict(to_dict(d))` has the name and the cards of `d`.
     */
    constructor FromDict(data: DeckDict)
      requires data.cards.Valid()
      ensures Valid() && ToDict() == data
      ensures name == data.name && cards == data.cards
    {
      name := data.name;
      cards := data.cards;
    }

    /** `total_cards()`: with the multiset invariant, at least one per distinct card. */
    function TotalCards(): (t: int)
      reads this
      requires Valid()
      ensures cards.AllPositive() ==> t >= |cards.keys|
    {
      assert cards.AllPositive() ==> cards.Total() >= |cards.keys| by {
        if cards.AllPositive() {
          TotalAtLeastDistinct(cards.keys, cards.qty);
        }
      }
      cards.Total()
    }

    /** `to_dict()`. */
    function ToDict(): (d: DeckDict)
      reads this
      ensures d.name == name && d.cards == cards
    {
      DeckDict(name, cards)
    }

    /** `add_card(card_name, qty)`: `cards[card_name] = cards.get(card_name, 0) + qty`. */
    method AddCard(cardName: string, q: int)
      requires Valid()
      modifies this
      ensures Valid() && name == old(name)
      ensures cards == AfterAdd(old(cards), cardName, q)
      ensures cards.Get(cardName) == old(cards.Get(cardName)) + q
      ensures forall k | k != cardName :: cards.Get(k) == old(cards.Get(k))
      ensures TotalCards() == old(TotalCards()) + q
      ensures old(cards.AllPositive()) && q >= 1 ==> cards.AllPositive()
    {
      ghost var before := cards;
      cards := cards.Set(cardName, cards.Get(cardName) + q);
      AddSetsEntry(before, cardName, q);
      AddTotal(before, cardName, q);
      if before.AllPositive() && q >= 1 {
        AddKeepsPositive(before, cardName, q);
      }
    }

    /**
     * `remove_card(card_name, qty)`: a card that is not in the deck is left
     * alone; otherwise a positive remainder is stored and anything else
     * deletes the entry.
     */
    method RemoveCard(cardName: string, q: int)
      requires Valid()
      modifies this
      ensures Valid() && name == old(name)
      ensures cards == AfterRemove(old(cards), cardName, q)
      ensures cardName !in old(cards.qty) ==> cards == old(cards)
      ensures cardName in cards.qty ==> cards.qty[cardName] > 0 || cardName !in old(cards.qty)
      ensures cards.qty.Keys <= old(cards.qty.Keys)
      ensures forall k | k != cardName :: cards.Get(k) == old(cards.Get(k))
      ensures old(cards.AllPositive()) ==> cards.AllPositive()
    {
      if cardName in cards.qty {
        var newQty := cards.qty[cardName] - q;
        if newQty > 0 {
          cards := cards.Set(cardName, newQty);
        } else {
          cards := cards.Delete(cardName);
        }
      }
      RemoveEntry(old(cards), cardName, q);
      if old(cards.AllPositive()) {
        RemoveKeepsPositive(old(cards), cardName, q);
      }
    }
  }
}
