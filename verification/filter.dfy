/** The filter effect of the storefront: the cards that match the search box, the price token
    and the status token, in their original order. */
module CardFilter {
  import opened Text
  import opened Records
  import opened SeqLaws

  /** The three inputs: free-text query, selected `price_bnd` token, selected status. The empty
      string means "any". */
  datatype Criteria = Criteria(query: string, price: string, status: string)

  const NoCriteria := Criteria("", "", "")

  /** `c.<key>.toLowerCase().includes(q)` for a key the card has. */
  predicate FieldHas(c: Record, key: string, q: string)
    requires key in c
  {
    Includes(Lower(c[key]), q)
  }

  /** The query test only reads the fields it reaches: `name` always when `q` is non-empty,
      `set` when `name` misses, `rarity` when `set` misses too. Calling `toLowerCase` on a
      missing field throws, so each field read must exist. */
  predicate CanMatchQuery(c: Record, q: string) {
    q == [] || ("name" in c && (FieldHas(c, "name", q) || ("set" in c && (FieldHas(c, "set", q) || "rarity" in c))))
  }

  /** `matchQuery`, for the lower-cased query `q`. */
  predicate MatchQuery(c: Record, q: string)
    requires CanMatchQuery(c, q)
  {
    q == [] || FieldHas(c, "name", q) || FieldHas(c, "set", q) || FieldHas(c, "rarity", q)
  }

  /** `!token || c[key] === token`: a missing field is `undefined`, which equals no string. */
  predicate MatchToken(c: Record, key: string, token: string) {
    token == [] || (key in c && c[key] == token)
  }

  /** The filter callback runs on every card without throwing. */
  predicate Testable(cards: seq<Record>, crit: Criteria) {
    forall i :: 0 <= i < |cards| ==> CanMatchQuery(cards[i], Lower(crit.query))
  }

  /** The callback passed to `cards.filter`. */
  predicate Keep(c: Record, crit: Criteria)
    requires CanMatchQuery(c, Lower(crit.query))
  {
    && MatchQuery(c, Lower(crit.query))
    && MatchToken(c, "price_bnd", crit.price)
    && MatchToken(c, "status", crit.status)
  }

  /** `cards.filter(...)`. */
  function Apply(cards: seq<Record>, crit: Criteria): (r: seq<Record>)
    requires Testable(cards, crit)
    ensures |r| <= |cards|
    ensures forall c :: c in r <==> c in cards && CanMatchQuery(c, Lower(crit.query)) && Keep(c, crit)
    decreases |cards|
  {
    if cards == [] then []
    else
      var rest := Apply(cards[1..], crit);
      if Keep(cards[0], crit) then [cards[0]] + rest else rest
  }

  /** `a` is `b` with some elements removed and the rest kept in order. */
  predicate IsSubsequence(a: seq<Record>, b: seq<Record>)
    decreases |b|
  {
    a == [] || (b != [] && ((a[0] == b[0] && IsSubsequence(a[1..], b[1..])) || IsSubsequence(a, b[1..])))
  }

  /** The result keeps the cards in their original order. */
  lemma {:induction false} ApplySubsequence(cards: seq<Record>, crit: Criteria)
    requires Testable(cards, crit)
    ensures IsSubsequence(Apply(cards, crit), cards)
    decreases |cards|
  {
    if cards != [] {
      var rest := Apply(cards[1..], crit);
      ApplySubsequence(cards[1..], crit);
      if Keep(cards[0], crit) {
        assert Apply(cards, crit) == [cards[0]] + rest;
        assert ([cards[0]] + rest)[1..] == rest;
      }
    }
  }

  lemma {:induction false} TestableConcat(a: seq<Record>, b: seq<Record>, crit: Criteria)
    requires Testable(a, crit) && Testable(b, crit)
    ensures Testable(a + b, crit)
  {
    forall i | 0 <= i < |a + b|
      ensures CanMatchQuery((a + b)[i], Lower(crit.query))
    {
      if i >= |a| {
        assert (a + b)[i] == b[i - |a|];
      }
    }
  }

  /** Filtering a concatenation filters each part. With the single-card case this fixes the
      result exactly: each kept card appears once, where it stood. */
  lemma {:induction false} ApplyConcat(a: seq<Record>, b: seq<Record>, crit: Criteria)
    requires Testable(a, crit) && Testable(b, crit)
    ensures Testable(a + b, crit)
    ensures Apply(a + b, crit) == Apply(a, crit) + Apply(b, crit)
    decreases |a|
  {
    TestableConcat(a, b, crit);
    if a == [] {
      assert a + b == b;
    } else {
      var h := KeptHead(a, crit);
      ApplyHead(a, crit);
      TestableConcat(a[1..], b, crit);
      calc {
        Apply(a + b, crit);
      == { ConcatTail(a, b);
           ApplyHead(a + b, crit); }
        h + Apply(a[1..] + b, crit);
      == { ApplyConcat(a[1..], b, crit); }
        h + (Apply(a[1..], crit) + Apply(b, crit));
      == { ConcatAssoc(h, Apply(a[1..], crit), Apply(b, crit)); }
        (h + Apply(a[1..], crit)) + Apply(b, crit);
        Apply(a, crit) + Apply(b, crit);
      }
    }
  }

  /** The first card as the filter leaves it: itself when kept, nothing otherwise. */
  function KeptHead(cards: seq<Record>, crit: Criteria): seq<Record>
    requires cards != [] && Testable(cards, crit)
  {
    if Keep(cards[0], crit) then [cards[0]] else []
  }

  /** The filter decides the first card and filters the rest. */
  lemma {:induction false} ApplyHead(cards: seq<Record>, crit: Criteria)
    requires cards != [] && Testable(cards, crit)
    ensures Testable(cards[1..], crit)
    ensures Apply(cards, crit) == KeptHead(cards, crit) + Apply(cards[1..], crit)
  {
    assert forall i :: 0 <= i < |cards[1..]| ==> cards[1..][i] == cards[i + 1];
  }

  /** With no query, price or status every card is shown. */
  lemma {:induction false} NoCriteriaKeepsAll(cards: seq<Record>)
    ensures Testable(cards, NoCriteria)
    ensures Apply(cards, NoCriteria) == cards
    decreases |cards|
  {
    assert Lower("") == "";
    if cards != [] {
      NoCriteriaKeepsAll(cards[1..]);
      assert [cards[0]] + cards[1..] == cards;
    }
  }

  /** Filtering what was already filtered removes nothing more. */
  lemma {:induction false} ApplyIdempotent(cards: seq<Record>, crit: Criteria)
    requires Testable(cards, crit)
    ensures Testable(Apply(cards, crit), crit)
    ensures Apply(Apply(cards, crit), crit) == Apply(cards, crit)
    decreases |cards|
  {
    if cards != [] {
      var rest := Apply(cards[1..], crit);
      ApplyIdempotent(cards[1..], crit);
      if Keep(cards[0], crit) {
        var r := [cards[0]] + rest;
        assert r[0] == cards[0] && r[1..] == rest;
      }
    }
  }

  /** The query is case-insensitive: typing it in upper case gives the same cards. */
  lemma {:induction false} QueryCaseInsensitive(cards: seq<Record>, crit: Criteria)
    requires Testable(cards, crit)
    ensures Testable(cards, crit.(query := Lower(crit.query)))
    ensures Apply(cards, crit.(query := Lower(crit.query))) == Apply(cards, crit)
    decreases |cards|
  {
    LowerIdempotent(crit.query);
    if cards != [] {
      QueryCaseInsensitive(cards[1..], crit);
    }
  }

  /** Both cards lack `key`, or both have it with the same value once lower-cased. */
  predicate SameFolded(c: Record, d: Record, key: string) {
    (key in c <==> key in d) && (key in c ==> Lower(c[key]) == Lower(d[key]))
  }

  /** Both cards lack `key`, or both have it with the same value. */
  predicate SameField(c: Record, d: Record, key: string) {
    (key in c <==> key in d) && (key in c ==> c[key] == d[key])
  }

  /** The fields are searched case-insensitively too: two cards whose `name`, `set` and `rarity`
      differ only in case, and whose price and status agree, are kept or dropped together. */
  lemma {:induction false} FieldCaseInsensitive(c: Record, d: Record, crit: Criteria)
    requires SameFolded(c, d, "name") && SameFolded(c, d, "set") && SameFolded(c, d, "rarity")
    requires SameField(c, d, "price_bnd") && SameField(c, d, "status")
    ensures CanMatchQuery(c, Lower(crit.query)) <==> CanMatchQuery(d, Lower(crit.query))
    ensures CanMatchQuery(c, Lower(crit.query)) ==> (Keep(c, crit) <==> Keep(d, crit))
  {
    var q := Lower(crit.query);
    if "name" in c {
      assert FieldHas(c, "name", q) == FieldHas(d, "name", q);
    }
    if "set" in c {
      assert FieldHas(c, "set", q) == FieldHas(d, "set", q);
    }
    if "rarity" in c {
      assert FieldHas(c, "rarity", q) == FieldHas(d, "rarity", q);
    }
  }

  /** Selecting the status AVAILABLE keeps the available card and drops the sold one. */
  lemma {:induction false} StatusExample()
    ensures var pikachu := map["name" := "Pikachu", "status" := "AVAILABLE"];
      var charizard := map["name" := "Charizard", "status" := "SOLD"];
      var crit := Criteria("", "", "AVAILABLE");
      Testable([pikachu, charizard], crit) && Apply([pikachu, charizard], crit) == [pikachu]
  {
    var pikachu := map["name" := "Pikachu", "status" := "AVAILABLE"];
    var charizard := map["name" := "Charizard", "status" := "SOLD"];
    var crit := Criteria("", "", "AVAILABLE");
    assert Lower("") == "";
    assert charizard["status"] != "AVAILABLE" by {
      assert charizard["status"][0] == 'S';
    }
    assert Apply([charizard], crit) == [];
    assert [pikachu, charizard][1..] == [charizard];
  }
}
