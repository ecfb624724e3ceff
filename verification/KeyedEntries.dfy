/** A counted run of entries with distinct keys: how the codec stores its dictionaries. */
module KeyedEntries {
  import opened Bytes
  import opened StateFrames

  const ENTRY_LIMIT := 256

  /** How one entry is read, written, keyed, and when it is within its bounds. */
  datatype Codec<!T, !K> = Codec(
    read: bytes -> Parsed<T>, write: (T, bytes) -> bytes, key: T -> K, good: T -> bool)

  predicate Bound<T, K(==)>(c: Codec<T, K>, entries: seq<T>, k: K) {
    exists i :: 0 <= i < |entries| && c.key(entries[i]) == k
  }

  predicate Good<T, K(==)>(c: Codec<T, K>, entries: seq<T>) {
    && (forall i :: 0 <= i < |entries| ==> c.good(entries[i]))
    && (forall i, j :: 0 <= i < j < |entries| ==> c.key(entries[i]) != c.key(entries[j]))
  }

  function EntriesFrom<T, K(==)>(c: Codec<T, K>, s: bytes, count: nat, seen: seq<T>): Parsed<seq<T>>
    decreases count
  {
    if count == 0 then Got(seen, s)
    else
      var e := c.read(s);
      if e.Fail? || Bound(c, seen, c.key(e.value)) then Fail
      else EntriesFrom(c, e.rest, count - 1, seen + [e.value])
  }

  /** One turn of the reading loop. */
  lemma EntriesStep<T, K>(c: Codec<T, K>, s: bytes, count: nat, seen: seq<T>)
    requires count > 0
    ensures var e := c.read(s);
            EntriesFrom(c, s, count, seen)
            == (if e.Fail? || Bound(c, seen, c.key(e.value)) then Fail
                else EntriesFrom(c, e.rest, count - 1, seen + [e.value]))
  {
  }

  function EntriesBytes<T, K>(c: Codec<T, K>, entries: seq<T>, tail: bytes): bytes {
    if entries == [] then tail else c.write(entries[0], EntriesBytes(c, entries[1..], tail))
  }

  /** Reading undoes writing, and writing undoes reading, for one entry. */
  ghost predicate Faithful<T(!new), K(!new)>(c: Codec<T, K>) {
    && (forall e, tail :: c.good(e) ==> c.read(c.write(e, tail)) == Got(e, tail))
    && (forall s :: c.read(s).Got? ==> c.good(c.read(s).value) && s == c.write(c.read(s).value, c.read(s).rest))
  }

  lemma {:induction false} EntriesParse<T(!new), K(!new)>(c: Codec<T, K>, seen: seq<T>, entries: seq<T>, tail: bytes)
    requires Faithful(c) && Good(c, seen + entries)
    ensures EntriesFrom(c, EntriesBytes(c, entries, tail), |entries|, seen) == Got(seen + entries, tail)
    decreases |entries|
  {
    if entries == [] {
      assert seen + entries == seen;
    } else {
      var e, rest := entries[0], entries[1..];
      var all := seen + entries;
      assert all[|seen|] == e;
      assert !Bound(c, seen, c.key(e)) by {
        forall i | 0 <= i < |seen| ensures c.key(seen[i]) != c.key(e) {
          assert all[i] == seen[i];
        }
      }
      assert (seen + [e]) + rest == all;
      EntriesParse(c, seen + [e], rest, tail);
    }
  }

  lemma {:induction false} EntriesSplit<T(!new), K(!new)>(
    c: Codec<T, K>, s: bytes, count: nat, seen: seq<T>, all: seq<T>, rest: bytes)
    requires Faithful(c) && Good(c, seen)
    requires EntriesFrom(c, s, count, seen) == Got(all, rest)
    ensures |all| == |seen| + count && seen <= all && Good(c, all)
    ensures s == EntriesBytes(c, all[|seen|..], rest)
    decreases count
  {
    if count == 0 {
      assert all[|seen|..] == [];
    } else {
      var e := c.read(s);
      var longer := seen + [e.value];
      EntriesSplit(c, e.rest, count - 1, longer, all, rest);
      assert all[|seen|] == longer[|seen|] == e.value;
      assert seen == longer[..|seen|] == all[..|seen|];
      assert all[|seen|..][1..] == all[|longer|..];
    }
  }

  // ---- With the count in front ---------------------------------------------------

  function CountFrom(s: bytes, least: nat): Parsed<nat> {
    var count := NumberFrom(s, 4);
    if count.Fail? || !(least <= count.value <= ENTRY_LIMIT) then Fail else count
  }

  function CountedFrom<T, K(==)>(c: Codec<T, K>, s: bytes, least: nat): Parsed<seq<T>> {
    var count := CountFrom(s, least);
    if count.Fail? then Fail else EntriesFrom(c, count.rest, count.value, [])
  }

  function CountedBytes<T, K>(c: Codec<T, K>, entries: seq<T>, tail: bytes): bytes {
    Little(|entries|, 4) + EntriesBytes(c, entries, tail)
  }

  lemma CountedParses<T(!new), K(!new)>(c: Codec<T, K>, entries: seq<T>, least: nat, tail: bytes)
    requires Faithful(c) && Good(c, entries) && least <= |entries| <= ENTRY_LIMIT
    ensures CountedFrom(c, CountedBytes(c, entries, tail), least) == Got(entries, tail)
  {
    Widths();
    NumberFromLittle(|entries|, 4, EntriesBytes(c, entries, tail));
    assert [] + entries == entries;
    EntriesParse(c, [], entries, tail);
  }

  lemma CountedSplits<T(!new), K(!new)>(c: Codec<T, K>, s: bytes, least: nat, entries: seq<T>, rest: bytes)
    requires Faithful(c) && CountedFrom(c, s, least) == Got(entries, rest)
    ensures Good(c, entries) && least <= |entries| <= ENTRY_LIMIT
    ensures s == CountedBytes(c, entries, rest)
  {
    NumberFromSplits(s, 4);
    var count := CountFrom(s, least);
    EntriesSplit(c, count.rest, count.value, [], entries, rest);
    assert entries[0..] == entries;
  }
}
