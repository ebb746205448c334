/** The cache of module interfaces: a list with the last used entry first, bounded in number and bytes. */
module InterfaceCache {
  import opened Options

  type Key = seq<nat>

  datatype Interface = Interface(data: seq<nat>, sourceHash: nat, interfaceHash: nat)

  datatype Entry = Entry(key: Key, value: Interface)

  const MaxCount: nat := 64
  const MaxBytes: nat := 8 * 1024 * 1024

  function EntryBytes(e: Entry): nat {
    |e.key| + |e.value.data|
  }

  function Bytes(entries: seq<Entry>): nat {
    if entries == [] then 0 else EntryBytes(entries[0]) + Bytes(entries[1..])
  }

  lemma {:induction false} BytesAppend(a: seq<Entry>, b: seq<Entry>)
    ensures Bytes(a + b) == Bytes(a) + Bytes(b)
  {
    if a == [] {
      assert a + b == b;
    } else {
      assert (a + b)[1..] == a[1..] + b;
      BytesAppend(a[1..], b);
    }
  }

  lemma BytesMiddle(a: seq<Entry>, e: Entry, b: seq<Entry>)
    ensures Bytes(a + [e] + b) == Bytes(a) + EntryBytes(e) + Bytes(b) && Bytes([e] + (a + b)) == Bytes(a) + EntryBytes(e) + Bytes(b)
  {
    hide Bytes;
    BytesAppend(a + [e], b);
    BytesAppend(a, [e]);
    BytesAppend([e], a + b);
    BytesAppend(a, b);
    BytesOne(e);
  }

  lemma BytesOne(e: Entry)
    ensures Bytes([e]) == EntryBytes(e) && Bytes([]) == 0
  {
    assert Bytes([e]) == EntryBytes(e) + Bytes([]);
  }

  /** The first entry of a key. */
  function Lookup(entries: seq<Entry>, key: Key): Option<Interface> {
    if entries == [] then None
    else if entries[0].key == key then Some(entries[0].value)
    else Lookup(entries[1..], key)
  }

  lemma {:induction false} LookupAppend(a: seq<Entry>, b: seq<Entry>, key: Key)
    ensures Lookup(a + b, key) == if Lookup(a, key).Some? then Lookup(a, key) else Lookup(b, key)
  {
    if a == [] {
      assert a + b == b;
    } else {
      assert (a + b)[1..] == a[1..] + b;
      LookupAppend(a[1..], b, key);
    }
  }

  lemma LookupOne(e: Entry, key: Key)
    ensures Lookup([e], key) == if e.key == key then Some(e.value) else None
  {
    assert [e][1..] == [];
  }

  lemma {:induction false} LookupNone(entries: seq<Entry>, key: Key)
    ensures Lookup(entries, key).None? <==> forall i :: 0 <= i < |entries| ==> entries[i].key != key
  {
    if entries != [] {
      LookupNone(entries[1..], key);
      if forall i :: 0 <= i < |entries| ==> entries[i].key != key {
        forall i | 0 <= i < |entries[1..]|
          ensures entries[1..][i].key != key
        {
          assert entries[1..][i] == entries[i + 1];
        }
      } else if entries[0].key != key {
        var i :| 0 <= i < |entries| && entries[i].key == key;
        assert entries[1..][i - 1].key == key;
      }
    }
  }

  /** The first entry of a key, if any, holds what was last accepted for it. */
  ghost predicate Current(entries: seq<Entry>, accepted: map<Key, Interface>) {
    forall key :: Lookup(entries, key).Some? ==> key in accepted && accepted[key] == Lookup(entries, key).value
  }

  /** Moving the first entry of its key to the front does not change what keys lead to. */
  lemma MovedCurrent(a: seq<Entry>, e: Entry, b: seq<Entry>, accepted: map<Key, Interface>)
    requires Current(a + [e] + b, accepted) && Lookup(a, e.key).None?
    ensures Current([e] + (a + b), accepted) && e.key in accepted && accepted[e.key] == e.value
  {
    hide Lookup;
    forall key: Key
      ensures Lookup([e] + (a + b), key) == Lookup(a + [e] + b, key)
    {
      LookupAppend(a + [e], b, key);
      LookupAppend(a, [e], key);
      LookupAppend([e], a + b, key);
      LookupAppend(a, b, key);
      LookupOne(e, key);
    }
    LookupAppend([e], a + b, e.key);
    LookupOne(e, e.key);
  }

  /** Dropping entries from the end leaves every first entry a first entry. */
  lemma DroppedCurrent(a: seq<Entry>, b: seq<Entry>, accepted: map<Key, Interface>)
    requires Current(a + b, accepted)
    ensures Current(a, accepted)
  {
    hide Lookup;
    forall key: Key
      ensures Lookup(a, key).Some? ==> Lookup(a + b, key) == Lookup(a, key)
    {
      LookupAppend(a, b, key);
    }
  }

  lemma PutCurrent(entries: seq<Entry>, accepted: map<Key, Interface>, e: Entry)
    requires Current(entries, accepted)
    ensures Current([e] + entries, accepted[e.key := e.value])
  {
    hide Lookup;
    forall key: Key
      ensures Lookup([e] + entries, key) == if key == e.key then Some(e.value) else Lookup(entries, key)
    {
      LookupAppend([e], entries, key);
      LookupOne(e, key);
    }
  }

  /** The longest initial part, most recently used first, that leaves room for another entry. */
  function Trimmed(entries: seq<Entry>, bytes: nat): seq<Entry>
    decreases |entries|
  {
    if entries == [] || (|entries| < MaxCount && bytes + Bytes(entries) <= MaxBytes) then entries
    else Trimmed(entries[..|entries| - 1], bytes)
  }

  /** Trimming keeps an initial part with room behind it, and a longer one would not have that. */
  lemma {:induction false} TrimmedLongest(entries: seq<Entry>, bytes: nat)
    requires bytes <= MaxBytes
    ensures var r := Trimmed(entries, bytes);
            && r <= entries && |r| < MaxCount && bytes + Bytes(r) <= MaxBytes
            && forall n :: |r| < n <= |entries| ==> n >= MaxCount || bytes + Bytes(entries[..n]) > MaxBytes
    decreases |entries|
  {
    if entries != [] && (|entries| >= MaxCount || bytes + Bytes(entries) > MaxBytes) {
      var shorter := entries[..|entries| - 1];
      TrimmedLongest(shorter, bytes);
      forall n | |Trimmed(shorter, bytes)| < n <= |entries|
        ensures n >= MaxCount || bytes + Bytes(entries[..n]) > MaxBytes
      {
        assert entries[..n] == if n == |entries| then entries else shorter[..n];
      }
    } else {
      assert Bytes([]) == 0;
    }
  }

  lemma SameMembers(a: seq<Entry>, e: Entry, b: seq<Entry>)
    ensures multiset([e] + (a + b)) == multiset(a + [e] + b)
  {
  }

  class Cache {
    var entries: seq<Entry>
    var count: nat
    var bytes: nat
    var hits: nat
    var misses: nat
    /** The value of the last accepted put of each key. */
    ghost var accepted: map<Key, Interface>

    ghost predicate Valid()
      reads this
    {
      && count == |entries| <= MaxCount && bytes == Bytes(entries) <= MaxBytes && Current(entries, accepted)
    }

    constructor ()
      ensures Valid() && entries == [] && accepted == map[]
    {
      entries, count, bytes, hits, misses, accepted := [], 0, 0, 0, 0, map[];
    }

    /** A hit returns the last accepted value of the key; there is one exactly if an entry of the key is left. */
    method Get(key: Option<Key>) returns (value: Option<Interface>)
      requires Valid()
      modifies this
      ensures Valid() && accepted == old(accepted) && count == old(count) && bytes == old(bytes)
      ensures multiset(entries) == multiset(old(entries))
      ensures value.Some? <==> key.Some? && exists e :: e in old(entries) && e.key == key.value
      ensures value.Some? ==> key.value in accepted && accepted[key.value] == value.value
      ensures value.Some? ==> entries[0] == Entry(key.value, value.value) && hits == old(hits) + 1
      ensures value.None? ==> entries == old(entries) && misses == old(misses) + 1
    {
      hide Bytes, Current, Lookup;
      if key.Some? {
        var i := 0;
        while i < |entries|
          invariant i <= |entries| && forall j :: 0 <= j < i ==> entries[j].key != key.value
        {
          if entries[i].key == key.value {
            var a, e, b := entries[..i], entries[i], entries[i + 1..];
            assert entries == a + [e] + b;
            LookupNone(a, e.key);
            MovedCurrent(a, e, b, accepted);
            BytesMiddle(a, e, b);
            SameMembers(a, e, b);
            assert e in entries;
            entries := [e] + (a + b);
            hits := hits + 1;
            return Some(e.value);
          }
          i := i + 1;
        }
      }
      misses := misses + 1;
      value := None;
    }

    /** Drops the last entry, the least recently used one. */
    method DropLast()
      requires Valid() && entries != []
      modifies this
      ensures Valid() && accepted == old(accepted) && entries == old(entries)[..|old(entries)| - 1]
    {
      hide Bytes, Current;
      var n := |entries| - 1;
      assert entries == entries[..n] + [entries[n]] + [] && entries == entries[..n] + [entries[n]];
      BytesMiddle(entries[..n], entries[n], []);
      BytesOne(entries[n]);
      DroppedCurrent(entries[..n], [entries[n]], accepted);
      count := count - 1;
      bytes := bytes - EntryBytes(entries[n]);
      entries := entries[..n];
    }

    /** Puts a value in front, dropping old entries to make room; one too large is not accepted and changes nothing. */
    method Put(key: Option<Key>, value: Interface)
      requires Valid() && (key.Some? ==> |key.value| <= MaxBytes)
      modifies this
      ensures Valid()
      ensures key.None? || |key.value| + |value.data| > MaxBytes ==> entries == old(entries) && accepted == old(accepted)
      ensures key.Some? && |key.value| + |value.data| <= MaxBytes ==>
                && accepted == old(accepted)[key.value := value]
                && entries == [Entry(key.value, value)] + Trimmed(old(entries), |key.value| + |value.data|)
    {
      if key.None? || |value.data| > MaxBytes - |key.value| {
        return;
      }
      hide Bytes, Current;
      var e := Entry(key.value, value);
      while entries != [] && (count >= MaxCount || EntryBytes(e) > MaxBytes - bytes)
        invariant Valid() && accepted == old(accepted) && Trimmed(entries, EntryBytes(e)) == Trimmed(old(entries), EntryBytes(e))
        decreases |entries|
      {
        DropLast();
      }
      BytesOne(e);
      PutCurrent(entries, accepted, e);
      BytesAppend([e], entries);
      entries := [e] + entries;
      accepted := accepted[key.value := value];
      count := count + 1;
      bytes := bytes + EntryBytes(e);
    }
  }
}
