/**
 listAllImageSizes in process.js: read the size of every picture and count
 how many pictures have each size, keyed by the string "WIDTHxHEIGHT".

 The metadata read is a parameter: each picture's outcome is either the size
 that was read or a failure (the exception the loop catches and logs). The
 JavaScript Map is modelled as what it holds: its keys in insertion order
 (the order its entries are later listed in) and a map from key to count.
 */
module SizeHistogram {
  import Decimal
  import PortraitThumbnail

  /** The outcome of reading one picture's metadata. */
  datatype ReadOutcome = Read(size: PortraitThumbnail.Size) | Failed

  /** The histogram key `${width}x${height}`. */
  function SizeKey(s: PortraitThumbnail.Size): string {
    Decimal.NatToString(s.width) + "x" + Decimal.NatToString(s.height)
  }

  /** Two sizes share a key only if they are the same size, so counting keys counts sizes. */
  lemma SizeKeyInjective(s: PortraitThumbnail.Size, t: PortraitThumbnail.Size)
    requires SizeKey(s) == SizeKey(t)
    ensures s == t
  {
    Decimal.NumberThenSeparator(s.width, t.width, 'x', Decimal.NatToString(s.height), Decimal.NatToString(t.height));
    Decimal.NatToStringInjective(s.height, t.height);
  }

  /** The keys of the successful outcomes, in reading order. */
  function SuccessfulKeys(outcomes: seq<ReadOutcome>): seq<string> {
    if outcomes == [] then []
    else
      var rest := outcomes[..|outcomes| - 1];
      match outcomes[|outcomes| - 1]
      case Read(s) => SuccessfulKeys(rest) + [SizeKey(s)]
      case Failed => SuccessfulKeys(rest)
  }

  /** One key per successful read: failed reads contribute none. */
  lemma {:induction false} SuccessfulKeysCount(outcomes: seq<ReadOutcome>)
    ensures |SuccessfulKeys(outcomes)| == |outcomes| - multiset(outcomes)[Failed]
  {
    if outcomes != [] {
      var rest := outcomes[..|outcomes| - 1];
      assert outcomes == rest + [outcomes[|outcomes| - 1]];
      SuccessfulKeysCount(rest);
    }
  }

  /** The distinct elements of keys, each where it first occurs. */
  function FirstSeen(keys: seq<string>): seq<string> {
    if keys == [] then []
    else
      var seen := FirstSeen(keys[..|keys| - 1]);
      var k := keys[|keys| - 1];
      if k in seen then seen else seen + [k]
  }

  predicate Distinct(order: seq<string>) {
    forall i, j :: 0 <= i < j < |order| ==> order[i] != order[j]
  }

  /** The first-seen list holds every key exactly once. */
  lemma {:induction false} FirstSeenListsEachKeyOnce(keys: seq<string>)
    ensures Distinct(FirstSeen(keys))
    ensures forall k :: k in FirstSeen(keys) <==> k in keys
  {
    if keys != [] {
      var init := keys[..|keys| - 1];
      FirstSeenListsEachKeyOnce(init);
      assert keys == init + [keys[|keys| - 1]];
    }
  }

  /** `sizeMap.get(key) || 0`. */
  function Get(counts: map<string, nat>, key: string): nat {
    if key in counts then counts[key] else 0
  }

  /** The counts after `sizeMap.set(key, (sizeMap.get(key) || 0) + 1)` for each key in turn. */
  function CountMap(keys: seq<string>): map<string, nat> {
    if keys == [] then map[]
    else
      var counts := CountMap(keys[..|keys| - 1]);
      var k := keys[|keys| - 1];
      counts[k := Get(counts, k) + 1]
  }

  /** The sum of the counts of the listed keys. */
  function Total(order: seq<string>, counts: map<string, nat>): nat {
    if order == [] then 0 else Total(order[..|order| - 1], counts) + Get(counts, order[|order| - 1])
  }

  /** Each key's count is the number of times it was counted; only counted keys are present. */
  lemma {:induction false} CountMapCounts(keys: seq<string>, key: string)
    ensures Get(CountMap(keys), key) == multiset(keys)[key]
    ensures key in CountMap(keys) <==> key in keys
  {
    if keys != [] {
      var init := keys[..|keys| - 1];
      assert keys == init + [keys[|keys| - 1]];
      CountMapCounts(init, key);
    }
  }

  /** Changing the count of a key that is not listed does not change the total. */
  lemma {:induction false} TotalIgnoresUnlisted(order: seq<string>, counts: map<string, nat>, key: string, n: nat)
    requires key !in order
    ensures Total(order, counts[key := n]) == Total(order, counts)
  {
    if order != [] {
      TotalIgnoresUnlisted(order[..|order| - 1], counts, key, n);
    }
  }

  /** Adding one to the count of a key listed once adds one to the total. */
  lemma {:induction false} TotalIncrement(order: seq<string>, counts: map<string, nat>, key: string)
    requires Distinct(order)
    requires key in order
    ensures Total(order, counts[key := Get(counts, key) + 1]) == Total(order, counts) + 1
  {
    var init, last := order[..|order| - 1], order[|order| - 1];
    if last == key {
      assert key !in init;
      TotalIgnoresUnlisted(init, counts, key, Get(counts, key) + 1);
    } else {
      TotalIncrement(init, counts, key);
    }
  }

  /** The counts of the distinct keys add up to the number of keys counted. */
  lemma {:induction false} TotalIsNumberOfKeys(keys: seq<string>)
    ensures Total(FirstSeen(keys), CountMap(keys)) == |keys|
  {
    if keys != [] {
      var init, key := keys[..|keys| - 1], keys[|keys| - 1];
      var order, counts := FirstSeen(init), CountMap(init);
      TotalIsNumberOfKeys(init);
      FirstSeenListsEachKeyOnce(init);
      if key in order {
        TotalIncrement(order, counts, key);
      } else {
        CountMapCounts(init, key);
        TotalIgnoresUnlisted(order, counts, key, 1);
        assert (order + [key])[..|order|] == order;
      }
    }
  }

  /** A size's count is the number of pictures read with that size. */
  lemma {:induction false} KeyCountIsSizeCount(outcomes: seq<ReadOutcome>, s: PortraitThumbnail.Size)
    ensures multiset(SuccessfulKeys(outcomes))[SizeKey(s)] == multiset(outcomes)[Read(s)]
  {
    if outcomes != [] {
      var rest := outcomes[..|outcomes| - 1];
      assert outcomes == rest + [outcomes[|outcomes| - 1]];
      KeyCountIsSizeCount(rest, s);
      match outcomes[|outcomes| - 1]
      case Read(t) =>
        if SizeKey(t) == SizeKey(s) {
          SizeKeyInjective(t, s);
        }
      case Failed =>
    }
  }

  lemma SuccessfulKeysStep(outcomes: seq<ReadOutcome>, i: nat)
    requires i < |outcomes|
    ensures outcomes[i].Read? ==>
      SuccessfulKeys(outcomes[..i + 1]) == SuccessfulKeys(outcomes[..i]) + [SizeKey(outcomes[i].size)]
    ensures outcomes[i].Failed? ==> SuccessfulKeys(outcomes[..i + 1]) == SuccessfulKeys(outcomes[..i])
  {
    assert outcomes[..i + 1][..i] == outcomes[..i];
  }

  /**
   What the histogram of the pictures says: each size's count is the number
   of pictures read with that size, only sizes that were read have a key,
   every key is listed once and has a positive count, and the counts add up
   to the number of successful reads, so failed reads contribute nothing.
   */
  lemma HistogramOfOutcomes(outcomes: seq<ReadOutcome>)
    ensures var keys := SuccessfulKeys(outcomes);
      var order, counts := FirstSeen(keys), CountMap(keys);
      && (forall s :: Get(counts, SizeKey(s)) == multiset(outcomes)[Read(s)])
      && (forall k :: k in counts <==> k in keys)
      && (forall k :: k in counts ==> counts[k] > 0)
      && Distinct(order) && (forall k :: k in order <==> k in counts)
      && Total(order, counts) == |outcomes| - multiset(outcomes)[Failed]
  {
    var keys := SuccessfulKeys(outcomes);
    var counts := CountMap(keys);
    SuccessfulKeysCount(outcomes);
    FirstSeenListsEachKeyOnce(keys);
    TotalIsNumberOfKeys(keys);
    forall k ensures (k in counts <==> k in keys) && (k in counts ==> counts[k] > 0) {
      CountMapCounts(keys, k);
    }
    forall s: PortraitThumbnail.Size ensures Get(counts, SizeKey(s)) == multiset(outcomes)[Read(s)] {
      CountMapCounts(keys, SizeKey(s));
      KeyCountIsSizeCount(outcomes, s);
    }
  }

  /**
   The counting loop. The Map ends up holding, in insertion order, one entry
   per distinct key of the successful reads, with the number of times it was
   seen; HistogramOfOutcomes says what that means in terms of the pictures.
   */
  method CountSizes(outcomes: seq<ReadOutcome>) returns (order: seq<string>, counts: map<string, nat>)
    ensures order == FirstSeen(SuccessfulKeys(outcomes))
    ensures counts == CountMap(SuccessfulKeys(outcomes))
  {
    order, counts := [], map[];
    ghost var keys: seq<string> := [];
    var i := 0;
    while i < |outcomes|
      invariant 0 <= i <= |outcomes|
      invariant keys == SuccessfulKeys(outcomes[..i])
      invariant order == FirstSeen(keys) && counts == CountMap(keys)
    {
      SuccessfulKeysStep(outcomes, i);
      if outcomes[i].Read? {
        var key := SizeKey(outcomes[i].size);
        assert (keys + [key])[..|keys|] == keys;
        if key !in order {
          order := order + [key];
        }
        counts := counts[key := Get(counts, key) + 1];
        keys := keys + [key];
      }
      i := i + 1;
    }
    assert outcomes[..i] == outcomes;
  }
}
