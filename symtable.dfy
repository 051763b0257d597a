/**
 * The open-addressed symbol table of src/symtable/symtable.c: an array of
 * slots probed linearly from the key's hash, doubled once it is three
 * quarters full, with lookup by a prefix compare of the key.
 *
 * XXH64 is a parameter (`hash`, of the key and the seed). Keys are C
 * strings, so they hold no NUL, and the hash is an unbounded number where
 * the source's size_t wraps; the slot `hash % cap` is the same either way,
 * as `cap` is a power of two.
 */
module Symbols {
  import opened Common

  /** The initial number of slots. */
  const CAP: nat := 1024

  /** An entry's status: memset to 0 gives EMPTY. */
  datatype Slot<V> = Empty | Deleted | Set(key: string, value: V)

  /** How many probes it takes from slot `a` to slot `b` in a table of `cap` slots. */
  function Dist(a: nat, b: nat, cap: nat): nat
    requires a < cap && b < cap
  {
    if a <= b then b - a else b + cap - a
  }

  /** The slot after slot `i`. */
  function Succ(i: nat, cap: nat): (j: nat)
    requires i < cap
    ensures j < cap
  {
    if i + 1 == cap then 0 else i + 1
  }

  /** Slot `i` comes strictly before slot `b` on the probe path that starts at `a`. */
  predicate Before(a: nat, b: nat, i: nat, cap: nat)
    requires a < cap && b < cap && i < cap
  {
    Dist(a, i, cap) < Dist(a, b, cap)
  }

  /** Different slots lie at different distances along a probe path. */
  lemma DistInjective(a: nat, b: nat, c: nat, cap: nat)
    requires a < cap && b < cap && c < cap && b != c
    ensures Dist(a, b, cap) != Dist(a, c, cap)
  {
  }

  /** One probe further: the path covers one more slot, the one just left. */
  lemma PathStep(a: nat, b: nat, cap: nat)
    requires a < cap && b < cap && Dist(a, b, cap) + 1 < cap
    ensures Dist(a, Succ(b, cap), cap) == Dist(a, b, cap) + 1
    ensures forall i :: 0 <= i < cap ==> (Before(a, Succ(b, cap), i, cap) <==> Before(a, b, i, cap) || i == b)
  {
  }

  /** The slot after `h % cap`, wrapping around: what hash + 1 reduces to. */
  lemma ModSucc(h: nat, cap: nat)
    requires cap > 0
    ensures (h + 1) % cap == if h % cap + 1 == cap then 0 else h % cap + 1
  {
    var q, r := h / cap, h % cap;
    if r + 1 < cap {
      ModUnique(h + 1, q, r + 1, cap);
    } else {
      ModUnique(h + 1, q + 1, 0, cap);
    }
  }

  /** Euclidean division is unique. */
  lemma ModUnique(x: int, q: int, r: int, n: int)
    requires n > 0 && 0 <= r < n && x == q * n + r
    ensures x % n == r
  {
    var q', r' := x / n, x % n;
    assert x == q' * n + r';
    assert (q - q') * n == r' - r;
    if q > q' {
      MulAtLeast(q - q', n);
    } else if q < q' {
      MulAtLeast(q' - q, n);
    }
  }

  lemma MulAtLeast(k: int, n: int)
    requires k >= 1 && n > 0
    ensures k * n >= n
  {
    assert k * n == (k - 1) * n + n;
  }

  /** The key-value pairs of the SET slots. */
  function Entries<V(==)>(s: seq<Slot<V>>): (m: multiset<(string, V)>)
  {
    EntriesTo(s, |s|)
  }

  /** The key-value pairs of the SET slots among the first `i`. */
  function EntriesTo<V(==)>(s: seq<Slot<V>>, i: nat): (m: multiset<(string, V)>)
    requires i <= |s|
  {
    if i == 0 then multiset{} else EntriesTo(s, i - 1) + Pair(s[i - 1])
  }

  /** The pair a slot holds, if it is SET. */
  function Pair<V(==)>(slot: Slot<V>): (m: multiset<(string, V)>)
  {
    if slot.Set? then multiset{(slot.key, slot.value)} else multiset{}
  }

  /** Overwriting an EMPTY slot with a SET one adds exactly its pair. */
  lemma EntriesUpdate<V>(s: seq<Slot<V>>, e: nat, key: string, v: V)
    requires e < |s| && s[e].Empty?
    ensures Entries(s[e := Set(key, v)]) == Entries(s) + multiset{(key, v)}
  {
    EntriesToUpdate(s, e, key, v, |s|);
  }

  lemma {:induction false} EntriesToUpdate<V>(s: seq<Slot<V>>, e: nat, key: string, v: V, i: nat)
    requires e < |s| && s[e].Empty? && i <= |s|
    ensures EntriesTo(s[e := Set(key, v)], i) == EntriesTo(s, i) + (if e < i then multiset{(key, v)} else multiset{})
  {
    if i > 0 {
      var t := s[e := Set(key, v)];
      EntriesToUpdate(s, e, key, v, i - 1);
      assert EntriesTo(t, i) == EntriesTo(t, i - 1) + Pair(t[i - 1]);
      assert EntriesTo(s, i) == EntriesTo(s, i - 1) + Pair(s[i - 1]);
      if i - 1 == e {
        assert Pair(t[i - 1]) == multiset{(key, v)};
        assert Pair(s[i - 1]) == multiset{};
      } else {
        assert t[i - 1] == s[i - 1];
      }
    }
  }

  /** A table with fewer pairs than slots, and no DELETED slot, has an EMPTY slot. */
  lemma EmptySlotExists<V>(s: seq<Slot<V>>) returns (e: nat)
    requires |Entries(s)| < |s|
    requires forall i :: 0 <= i < |s| ==> !s[i].Deleted?
    ensures e < |s| && s[e].Empty?
  {
    e := EmptySlotBelow(s, |s|);
  }

  lemma {:induction false} EmptySlotBelow<V>(s: seq<Slot<V>>, i: nat) returns (e: nat)
    requires i <= |s| && |EntriesTo(s, i)| < i
    requires forall k :: 0 <= k < |s| ==> !s[k].Deleted?
    ensures e < i && s[e].Empty?
  {
    if s[i - 1].Empty? {
      return i - 1;
    }
    e := EmptySlotBelow(s, i - 1);
  }

  /** The first `i` slots hold no more pairs than the whole. */
  lemma {:induction false} EntriesCount<V>(s: seq<Slot<V>>, i: nat)
    requires i <= |s|
    ensures |EntriesTo(s, i)| <= |Entries(s)|
    decreases |s| - i
  {
    if i < |s| {
      EntriesCount(s, i + 1);
      assert |EntriesTo(s, i + 1)| == |EntriesTo(s, i)| + |Pair(s[i])|;
    }
  }

  /** A SET slot's pair is among the pairs. */
  lemma {:induction false} InEntries<V>(s: seq<Slot<V>>, j: nat, i: nat)
    requires j < i <= |s| && s[j].Set?
    ensures (s[j].key, s[j].value) in EntriesTo(s, i)
  {
    if j < i - 1 {
      InEntries(s, j, i - 1);
    }
  }

  /** Every pair sits in a SET slot. */
  lemma {:induction false} EntriesMember<V>(s: seq<Slot<V>>, i: nat, kv: (string, V)) returns (j: nat)
    requires i <= |s| && kv in EntriesTo(s, i)
    ensures j < i && s[j] == Set(kv.0, kv.1)
  {
    if kv in Pair(s[i - 1]) {
      return i - 1;
    }
    j := EntriesMember(s, i - 1, kv);
  }

  /**
   * The arithmetic of the load factor: a table at most three quarters full
   * has room for one more pair, within three quarters of its size once
   * it is doubled, and within three quarters already when it was below.
   */
  lemma Room(use: nat, cap: nat)
    requires cap > 0 && use <= (cap * 3) / 4
    ensures use + 1 < 2 * cap && use + 1 <= (2 * cap * 3) / 4
    ensures use < (cap * 3) / 4 ==> use + 1 < cap
  {
  }

  class SymTable<V(==)> {
    /** The number of SET slots. */
    var use: nat
    var cap: nat
    /** The hash seed: 0 from symtable_make on, and never written again. */
    const seed: nat
    var entries: array<Slot<V>>
    /** XXH64 of a key with a seed. */
    const hash: (string, nat) -> nat

    /** The slot the probe for `key` starts at. */
    function Home(key: string): (i: nat)
      requires cap > 0
      reads this`cap
      ensures i < cap
    {
      hash(key, seed) % cap
    }

    /**
     * Linear probing works: there is no DELETED slot, there is an EMPTY
     * one, and every slot between a SET slot's home and the slot itself is
     * SET, so a probe for its key cannot stop before reaching it.
     */
    ghost predicate Probing()
      reads this`cap, this`entries, entries
    {
      && cap == entries.Length && cap > 0
      && (forall i :: 0 <= i < cap ==> !entries[i].Deleted?)
      && |Entries(entries[..])| < cap
      && (forall j, i {:trigger Before(Home(entries[j].key), j, i, cap)} :: 0 <= j < cap && 0 <= i < cap && entries[j].Set? && Before(Home(entries[j].key), j, i, cap) ==> entries[i].Set?)
    }

    /** `use` counts the pairs, and the table is at most three quarters full. */
    ghost predicate Valid()
      reads this, entries
    {
      Probing() && use == |Entries(entries[..])| && use <= (cap * 3) / 4
    }

    /** symtable_make: no entries, 1024 EMPTY slots, seed 0. */
    constructor (hash: (string, nat) -> nat)
      ensures Valid() && use == 0 && cap == CAP && seed == 0 && this.hash == hash
      ensures Entries(entries[..]) == multiset{}
      ensures fresh(entries)
    {
      use := 0;
      cap := CAP;
      seed := 0;
      this.hash := hash;
      entries := new Slot<V>[CAP](_ => Empty);
      new;
      EmptyEntries(entries[..], CAP);
    }

    /** next: one more probe, at the following slot. */
    method Next(h: nat) returns (h2: nat, e: Slot<V>)
      requires cap == entries.Length && cap > 0
      ensures h2 == h + 1 && h2 % cap == (if h % cap + 1 == cap then 0 else h % cap + 1)
      ensures e == entries[h2 % cap]
    {
      h2 := h + 1;
      ModSucc(h, cap);
      e := entries[h2 % cap];
    }

    /**
     * The probe loop of insert_entry: from the key's home, take the next
     * slot until one is EMPTY. It stops at the first EMPTY slot of the
     * path and returns the unreduced probe hash.
     */
    method ProbeEmpty(key: string) returns (h: nat)
      requires Probing()
      ensures h % cap < cap && entries[h % cap].Empty?
      ensures forall i :: 0 <= i < cap && Before(Home(key), h % cap, i, cap) ==> entries[i].Set?
    {
      h := hash(key, seed);
      var e := entries[h % cap];
      ghost var idx := h % cap;
      ghost var home := idx;
      ghost var empty := EmptySlotExists(entries[..]);
      while e != Empty
        invariant idx == h % cap && idx < cap && e == entries[idx]
        invariant Dist(home, idx, cap) <= Dist(home, empty, cap)
        invariant forall i :: 0 <= i < cap && Before(home, idx, i, cap) ==> entries[i].Set?
        decreases Dist(home, empty, cap) - Dist(home, idx, cap)
      {
        DistInjective(home, idx, empty, cap);
        PathStep(home, idx, cap);
        h, e := Next(h);
        idx := Succ(idx, cap);
      }
    }

    /**
     * insert_entry as intended: store the pair in the first EMPTY slot on
     * the probe path from the key's home. The pairs gain exactly this one,
     * every other slot is as it was, and the probe paths stay intact. The
     * unreduced probe hash is returned.
     */
    method InsertEntry(key: string, v: V) returns (h: nat)
      requires Probing() && |Entries(entries[..])| + 1 < cap
      modifies entries
      ensures Probing()
      ensures Entries(entries[..]) == old(Entries(entries[..])) + multiset{(key, v)}
      ensures h % cap < cap && old(entries[h % cap]).Empty? && entries[h % cap] == Set(key, v)
      ensures forall i :: 0 <= i < cap && Before(Home(key), h % cap, i, cap) ==> old(entries[i]).Set?
      ensures forall i :: 0 <= i < cap && i != h % cap ==> entries[i] == old(entries[i])
    {
      h := ProbeEmpty(key);
      var idx := h % cap;
      EntriesUpdate(entries[..], idx, key, v);
      entries[idx] := Set(key, v);
      assert entries[..] == old(entries[..])[idx := Set(key, v)];
      forall j, i | 0 <= j < cap && 0 <= i < cap && entries[j].Set? && Before(Home(entries[j].key), j, i, cap)
        ensures entries[i].Set?
      {
        if j != idx {
          assert old(entries[j]) == entries[j];
          assert old(entries[i]).Set?;
        }
      }
    }

    /**
     * insert_entry as written: the same probe, but the pair is stored into
     * a copy of the slot, so the table is left as it was.
     */
    method InsertEntryAsWritten(key: string, v: V) returns (h: nat)
      requires Probing()
      ensures h % cap < cap && entries[h % cap].Empty?
    {
      h := ProbeEmpty(key);
      var e := entries[h % cap];
      e := Set(key, v);
    }

    /**
     * The probe loop of symtable_find: from the key's home, take the next
     * slot while it is SET and its key does not start with `key`. Every
     * slot passed is such a slot.
     */
    method ProbeKey(key: string) returns (h: nat)
      requires Probing()
      ensures h % cap < cap && (entries[h % cap].Empty? || (entries[h % cap].Set? && key <= entries[h % cap].key))
      ensures forall i :: 0 <= i < cap && Before(Home(key), h % cap, i, cap) ==> entries[i].Set? && !(key <= entries[i].key)
    {
      h := hash(key, seed);
      var e := entries[h % cap];
      ghost var idx := h % cap;
      ghost var home := idx;
      ghost var empty := EmptySlotExists(entries[..]);
      while e.Set? && !(key <= e.key)
        invariant idx == h % cap && idx < cap && e == entries[idx]
        invariant Dist(home, idx, cap) <= Dist(home, empty, cap)
        invariant forall i :: 0 <= i < cap && Before(home, idx, i, cap) ==> entries[i].Set? && !(key <= entries[i].key)
        decreases Dist(home, empty, cap) - Dist(home, idx, cap)
      {
        DistInjective(home, idx, empty, cap);
        PathStep(home, idx, cap);
        h, e := Next(h);
        idx := Succ(idx, cap);
      }
    }

    /** A probe for `key` that reaches an EMPTY slot passing only other keys shows `key` is not stored. */
    lemma NotStored(key: string, idx: nat)
      requires Probing() && idx < cap && entries[idx].Empty?
      requires forall i :: 0 <= i < cap && Before(Home(key), idx, i, cap) ==> entries[i].Set? && !(key <= entries[i].key)
      ensures forall w :: (key, w) !in Entries(entries[..])
    {
      forall w ensures (key, w) !in Entries(entries[..]) {
        if (key, w) in Entries(entries[..]) {
          var j := EntriesMember(entries[..], cap, (key, w));
          DistInjective(Home(key), idx, j, cap);
          ghost var chained := Before(Home(entries[j].key), j, idx, cap);
          assert false;
        }
      }
    }

    /**
     * symtable_find: probe from the key's home while the slot is SET and
     * its key does not start with `key` (memcmp over strlen(key) bytes).
     * Stopping at a SET slot gives its value, at an EMPTY one NULL. A value
     * found belongs to a pair whose key starts with `key`; NULL means that
     * no pair has this very key. The table is not changed.
     */
    method Find(key: string) returns (r: Option<V>)
      requires Probing()
      ensures r.Some? ==> exists k :: key <= k && (k, r.value) in Entries(entries[..])
      ensures r.None? ==> forall w :: (key, w) !in Entries(entries[..])
    {
      var h := ProbeKey(key);
      var e := entries[h % cap];
      if e.Set? {
        InEntries(entries[..], h % cap, cap);
        return Some(e.value);
      }
      NotStored(key, h % cap);
      return None;
    }

    /**
     * The loop of symtable_expand: every SET slot of `from`, in slot order,
     * inserted into this table, which starts with no pairs.
     */
    method ReinsertAll(from: array<Slot<V>>)
      requires Probing() && Entries(entries[..]) == multiset{} && from != entries
      requires |Entries(from[..])| + 1 < cap
      modifies entries
      ensures Probing() && Entries(entries[..]) == Entries(from[..])
    {
      ghost var src := from[..];
      for i := 0 to from.Length
        invariant Probing()
        invariant Entries(entries[..]) == EntriesTo(src, i)
      {
        ReinsertSlot(src, i, from[i]);
      }
    }

    /** One step of that loop: `slot`, the slot `i` of `src`, has its pair inserted if it is SET. */
    method ReinsertSlot(ghost src: seq<Slot<V>>, i: nat, slot: Slot<V>)
      requires Probing() && i < |src| && slot == src[i]
      requires Entries(entries[..]) == EntriesTo(src, i)
      requires |Entries(src)| + 1 < cap
      modifies entries
      ensures Probing() && Entries(entries[..]) == EntriesTo(src, i + 1)
    {
      EntriesCount(src, i + 1);
      assert |EntriesTo(src, i + 1)| == |EntriesTo(src, i)| + |Pair(slot)|;
      if slot.Set? {
        var _ := InsertEntry(slot.key, slot.value);
      }
    }

    /**
     * symtable_expand: twice the slots, all EMPTY, into which every SET
     * slot of the old array is inserted again. The pairs are the same; only
     * where they sit changes.
     */
    method Expand()
      requires Valid()
      modifies this
      ensures Valid() && fresh(entries) && cap == 2 * old(cap)
      ensures use == old(use)
      ensures Entries(entries[..]) == old(Entries(entries[..]))
    {
      var from := entries;
      Room(use, cap);
      entries := new Slot<V>[2 * cap](_ => Empty);
      cap := 2 * cap;
      EmptyEntries(entries[..], cap);
      ReinsertAll(from);
    }

    /**
     * symtable_push as intended: grow first when the table is three
     * quarters full, then insert the pair and count it.
     */
    method Push(key: string, v: V) returns (h: nat)
      requires Valid()
      modifies this, entries
      ensures Valid()
      ensures Entries(entries[..]) == old(Entries(entries[..])) + multiset{(key, v)}
      ensures use == old(use) + 1
      ensures cap == if old(use) >= (old(cap) * 3) / 4 then 2 * old(cap) else old(cap)
      ensures h % cap < cap && entries[h % cap] == Set(key, v)
    {
      Room(use, cap);
      if use >= (cap * 3) / 4 {
        Expand();
      }
      h := InsertEntry(key, v);
      use := use + 1;
    }

    /**
     * symtable_push as written: the same growth check, but insert_entry as
     * written, and `use` is never counted. The growth branch calls the
     * intended Expand, whose reinsertion stores every entry; symtable_expand
     * as written would reinsert through the same insert_entry and lose them
     * all. That branch is never reached from a table symtable_make built,
     * since `use` stays 0 below 3/4 of the capacity.
     */
    method PushAsWritten(key: string, v: V) returns (h: nat)
      requires Valid()
      modifies this
      ensures Valid() && use == old(use)
      ensures Entries(entries[..]) == old(Entries(entries[..]))
      ensures cap == if old(use) >= (old(cap) * 3) / 4 then 2 * old(cap) else old(cap)
    {
      if use >= (cap * 3) / 4 {
        Expand();
      }
      h := InsertEntryAsWritten(key, v);
    }
  }

  /** No key among the pairs starts with `key`. */
  ghost predicate NoKeyStartsWith<V>(m: multiset<(string, V)>, key: string)
  {
    forall kv :: kv in m ==> !(key <= kv.0)
  }

  /**
   * What a lookup of `key` can answer once the pairs are `before` and one
   * more: when no key of `before` starts with `key`, only that one.
   */
  lemma OnlyPushedMatches<V>(before: multiset<(string, V)>, after: multiset<(string, V)>, key: string, v: V, r: Option<V>)
    requires NoKeyStartsWith(before, key)
    requires after == before + multiset{(key, v)}
    requires r.Some? ==> exists k :: key <= k && (k, r.value) in after
    requires r.None? ==> forall w :: (key, w) !in after
    ensures r == Some(v)
  {
    if r.Some? {
      var k :| key <= k && (k, r.value) in after;
      assert (k, r.value) !in before;
    }
  }

  /** Nor, when the pairs are just `before`, can it answer anything. */
  lemma NoneMatches<V>(before: multiset<(string, V)>, key: string, r: Option<V>)
    requires NoKeyStartsWith(before, key)
    requires r.Some? ==> exists k :: key <= k && (k, r.value) in before
    ensures r == None
  {
  }

  /**
   * As written, a key pushed into a table where no key starts with it is
   * not found again, and the count of entries stays where it was.
   */
  method PushAsWrittenLosesKey<V(==)>(t: SymTable<V>, key: string, v: V) returns (r: Option<V>)
    requires t.Valid()
    requires NoKeyStartsWith(Entries(t.entries[..]), key)
    modifies t
    ensures r == None && t.use == old(t.use)
  {
    ghost var before := Entries(t.entries[..]);
    var _ := t.PushAsWritten(key, v);
    r := t.Find(key);
    NoneMatches(before, key, r);
  }

  /** As intended, the key pushed is found again with its value, and counted. */
  method PushThenFind<V(==)>(t: SymTable<V>, key: string, v: V) returns (r: Option<V>)
    requires t.Valid()
    requires NoKeyStartsWith(Entries(t.entries[..]), key)
    modifies t, t.entries
    ensures r == Some(v) && t.use == old(t.use) + 1
  {
    ghost var before := Entries(t.entries[..]);
    var _ := t.Push(key, v);
    r := t.Find(key);
    OnlyPushedMatches(before, Entries(t.entries[..]), key, v, r);
  }

  /** A table of EMPTY slots holds no pairs. */
  lemma {:induction false} EmptyEntries<V>(s: seq<Slot<V>>, i: nat)
    requires i <= |s| && forall k :: 0 <= k < |s| ==> s[k].Empty?
    ensures EntriesTo(s, i) == multiset{}
  {
    if i > 0 {
      EmptyEntries(s, i - 1);
    }
  }
}
