/** The keyspace in cluster mode: the main dictionary, the expires dictionary, and an ordered index of
    all keys by hash slot that must agree with them. */
module SlotKeys {
  import opened Common
  import opened Resp
  import opened Dataset

  const SLOTS: nat := 16384
  const OPEN: Byte := 123
  const CLOSE: Byte := 125

  // ---------- hash slots ----------

  /** The first position of c from i on, or the length. */
  function Find(key: Bytes, c: Byte, i: nat): (r: nat)
    requires i <= |key|
    ensures i <= r <= |key| && (r < |key| ==> key[r] == c) && forall j | i <= j < r :: key[j] != c
    decreases |key| - i
  {
    if i == |key| || key[i] == c then i else Find(key, c, i + 1)
  }

  /** What is hashed: the text between the first { and the first } after it, if there is any. */
  function HashTag(key: Bytes): Bytes {
    var s := Find(key, OPEN, 0);
    if s == |key| then key
    else
      var e := Find(key, CLOSE, s + 1);
      if e == |key| || e == s + 1 then key else key[s + 1..e]
  }

  function HashSlot(crc: Bytes -> nat, key: Bytes): nat { crc(HashTag(key)) % SLOTS }

  /** keyHashSlot. */
  method KeyHashSlot(crc: Bytes -> nat, key: Bytes) returns (slot: nat)
    ensures slot == HashSlot(crc, key) && slot < SLOTS
  {
    var s := 0;
    while s < |key|
      invariant s <= |key| && Find(key, OPEN, s) == Find(key, OPEN, 0)
    {
      if key[s] == OPEN { break; }
      s := s + 1;
    }
    if s == |key| { return crc(key) % SLOTS; }
    var e := s + 1;
    while e < |key|
      invariant e <= |key| && Find(key, CLOSE, e) == Find(key, CLOSE, s + 1)
    {
      if key[e] == CLOSE { break; }
      e := e + 1;
    }
    if e == |key| || e == s + 1 { return crc(key) % SLOTS; }
    slot := crc(key[s + 1..e]) % SLOTS;
  }

  // ---------- the ordered index ----------

  /** Byte strings in the order of the radix tree. */
  predicate Leq(a: Bytes, b: Bytes) {
    a == [] || (b != [] && (a[0] < b[0] || (a[0] == b[0] && Leq(a[1..], b[1..]))))
  }

  lemma {:induction false} LeqTotal(a: Bytes, b: Bytes)
    ensures Leq(a, b) || Leq(b, a)
  {
    if a != [] && b != [] && a[0] == b[0] { LeqTotal(a[1..], b[1..]); }
  }

  lemma {:induction false} LeqTransitive(a: Bytes, b: Bytes, c: Bytes)
    requires Leq(a, b) && Leq(b, c)
    ensures Leq(a, c)
  {
    if a != [] && a[0] == b[0] && b[0] == c[0] { LeqTransitive(a[1..], b[1..], c[1..]); }
  }

  lemma {:induction false} LeqSelf(a: Bytes)
    ensures Leq(a, a)
  {
    if a != [] { LeqSelf(a[1..]); }
  }

  function Prefix(slot: nat): (p: Bytes)
    requires slot < SLOTS
    ensures |p| == 2
  {
    [slot / 256, slot % 256]
  }

  function Indexed(slot: nat, key: Bytes): Bytes
    requires slot < SLOTS
  {
    Prefix(slot) + key
  }

  /** Entries of a slot come after its prefix and before everything at or after the prefix of a
      later slot. */
  lemma PrefixOrder(slot: nat, other: nat, key: Bytes)
    requires slot < SLOTS && other < SLOTS
    ensures Leq(Prefix(slot), Indexed(other, key)) <==> slot <= other
  {
    var p, e := Prefix(slot), Indexed(other, key);
    assert p[1..][1..] == [];
    assert e[0] == other / 256 && e[1..][0] == other % 256;
    assert p[1..][0] == slot % 256;
    assert Leq(p[1..], e[1..]) <==> slot % 256 <= other % 256;
  }

  lemma EntryOrder(slot: nat, key: Bytes, other: nat, key2: Bytes)
    requires slot < other < SLOTS
    ensures !Leq(Indexed(other, key2), Indexed(slot, key))
  {
    var a, b := Indexed(other, key2), Indexed(slot, key);
    assert a[0] == other / 256 && a[1..][0] == other % 256;
    assert b[0] == slot / 256 && b[1..][0] == slot % 256;
  }

  ghost predicate IsLeast(e: Bytes, s: set<Bytes>) { e in s && forall f | f in s :: Leq(e, f) }

  /** raxNext: the least entry of those still ahead of the iterator. */
  method Next(ahead: set<Bytes>) returns (e: Bytes)
    requires ahead != {}
    ensures IsLeast(e, ahead)
  {
    var rest := ahead;
    e :| e in rest;
    rest := rest - {e};
    LeqSelf(e);
    while rest != {}
      invariant e in ahead && rest < ahead && forall f | f in ahead && f !in rest :: Leq(e, f)
      decreases |rest|
    {
      var f :| f in rest;
      rest := rest - {f};
      LeqTotal(e, f);
      if !Leq(e, f) {
        forall g | g in ahead && g !in rest ensures Leq(f, g) {
          LeqSelf(f);
          if g != f { LeqTransitive(f, e, g); }
        }
        e := f;
      }
    }
  }

  /** raxSeek with ">=". */
  function Ahead(index: set<Bytes>, p: Bytes): set<Bytes> { set e | e in index && Leq(p, e) }

  // ---------- the keyspace ----------

  ghost function KeysIn(crc: Bytes -> nat, keys: set<Bytes>, slot: nat): set<Bytes> {
    set k | k in keys && HashSlot(crc, k) == slot
  }

  ghost function IndexOf(crc: Bytes -> nat, keys: set<Bytes>): set<Bytes> {
    set k | k in keys :: Indexed(HashSlot(crc, k), k)
  }

  lemma IndexMeans(crc: Bytes -> nat, keys: set<Bytes>, e: Bytes)
    ensures e in IndexOf(crc, keys) <==> |e| >= 2 && e[2..] in keys && e == Indexed(HashSlot(crc, e[2..]), e[2..])
  {
    if e in IndexOf(crc, keys) {
      var k :| k in keys && e == Indexed(HashSlot(crc, k), k);
      assert e[2..] == k;
    }
  }

  lemma IndexedInjective(crc: Bytes -> nat, a: Bytes, b: Bytes)
    requires Indexed(HashSlot(crc, a), a) == Indexed(HashSlot(crc, b), b)
    ensures a == b
  {
    assert Indexed(HashSlot(crc, a), a)[2..] == a;
    assert Indexed(HashSlot(crc, b), b)[2..] == b;
  }

  lemma IndexAdd(crc: Bytes -> nat, keys: set<Bytes>, k: Bytes)
    ensures IndexOf(crc, keys + {k}) == IndexOf(crc, keys) + {Indexed(HashSlot(crc, k), k)}
  {
    var a, b := IndexOf(crc, keys + {k}), IndexOf(crc, keys) + {Indexed(HashSlot(crc, k), k)};
    forall e ensures e in a <==> e in b {
      IndexMeans(crc, keys + {k}, e);
      IndexMeans(crc, keys, e);
      assert Indexed(HashSlot(crc, k), k)[2..] == k;
    }
  }

  lemma IndexRemove(crc: Bytes -> nat, keys: set<Bytes>, k: Bytes)
    ensures IndexOf(crc, keys - {k}) == IndexOf(crc, keys) - {Indexed(HashSlot(crc, k), k)}
  {
    var a, b := IndexOf(crc, keys - {k}), IndexOf(crc, keys) - {Indexed(HashSlot(crc, k), k)};
    forall e ensures e in a <==> e in b {
      IndexMeans(crc, keys - {k}, e);
      IndexMeans(crc, keys, e);
      assert Indexed(HashSlot(crc, k), k)[2..] == k;
    }
  }

  lemma CountAdd(crc: Bytes -> nat, keys: set<Bytes>, k: Bytes, slot: nat)
    requires k !in keys
    ensures |KeysIn(crc, keys + {k}, slot)| == |KeysIn(crc, keys, slot)| + if HashSlot(crc, k) == slot then 1 else 0
  {
    var a, b := KeysIn(crc, keys + {k}, slot), KeysIn(crc, keys, slot);
    if HashSlot(crc, k) == slot { assert a == b + {k}; } else { assert a == b; }
  }

  lemma CountRemove(crc: Bytes -> nat, keys: set<Bytes>, k: Bytes, slot: nat)
    requires k in keys
    ensures |KeysIn(crc, keys - {k}, slot)| == |KeysIn(crc, keys, slot)| - if HashSlot(crc, k) == slot then 1 else 0
  {
    CountAdd(crc, keys - {k}, k, slot);
    assert keys - {k} + {k} == keys;
  }

  /** If the slot has a key, the least entry from its prefix on is one of its keys. */
  lemma LeastIsInSlot(crc: Bytes -> nat, keys: set<Bytes>, ahead: set<Bytes>, slot: nat, e: Bytes)
    requires slot < SLOTS && ahead <= Ahead(IndexOf(crc, keys), Prefix(slot)) && IsLeast(e, ahead)
    ensures |e| >= 2 && e[2..] in keys && e == Indexed(HashSlot(crc, e[2..]), e[2..])
    ensures e[..2] == Prefix(HashSlot(crc, e[2..]))
    ensures (exists k :: k in KeysIn(crc, keys, slot) && Indexed(slot, k) in ahead) <==> e[..2] == Prefix(slot)
  {
    IndexMeans(crc, keys, e);
    var k := e[2..];
    var other := HashSlot(crc, k);
    PrefixOrder(slot, other, k);
    if exists j :: j in KeysIn(crc, keys, slot) && Indexed(slot, j) in ahead {
      var j :| j in KeysIn(crc, keys, slot) && Indexed(slot, j) in ahead;
      if slot < other { EntryOrder(slot, j, other, k); }
    }
    if e[..2] == Prefix(slot) {
      assert Prefix(slot) == Prefix(other);
      assert k in KeysIn(crc, keys, slot) && Indexed(slot, k) in ahead;
    }
  }

  /** A deadline moves with its key; -1 stands for none. */
  function RenamedExpires(e: map<Bytes, int>, src: Bytes, dst: Bytes): map<Bytes, int> {
    var rest := e - {src, dst};
    if src in e && e[src] != -1 then rest[dst := e[src]] else rest
  }

  lemma MovedKey(d: map<Bytes, Val>, e: map<Bytes, int>, src: Bytes, dst: Bytes)
    requires src in d && src != dst
    ensures (d - {dst})[dst := d[src]] - {src} == (d - {src})[dst := d[src]]
    ensures var expire := if src in e then e[src] else -1;
            (if expire != -1 then (e - {dst})[dst := expire] else e - {dst}) - {src} == RenamedExpires(e, src, dst)
  {
  }

  /** What looking a key up removes. */
  function Evicted(expires: map<Bytes, int>, k: Bytes, now: int, replica: bool): set<Bytes> {
    if k in expires && 0 <= expires[k] < now && !replica then {k} else {}
  }

  class KeySpace {
    const crc: Bytes -> nat
    var dict: map<Bytes, Val>
    var expires: map<Bytes, int>
    var index: set<Bytes>
    const counts: array<int>

    /** The index and the counts are the keyspace grouped by hash slot, and only existing keys have
        a deadline. */
    ghost predicate Valid()
      reads this, counts
    {
      && counts.Length == SLOTS
      && expires.Keys <= dict.Keys
      && index == IndexOf(crc, dict.Keys)
      && forall s | 0 <= s < SLOTS :: counts[s] == |KeysIn(crc, dict.Keys, s)|
    }

    constructor (crc: Bytes -> nat)
      ensures Valid() && dict == map[] && expires == map[] && this.crc == crc && fresh(counts)
    {
      this.crc := crc;
      dict, expires, index := map[], map[], {};
      counts := new int[SLOTS](i => 0);
      new;
      forall s | 0 <= s < SLOTS ensures counts[s] == |KeysIn(crc, dict.Keys, s)| {
        assert KeysIn(crc, dict.Keys, s) == {};
      }
      assert IndexOf(crc, dict.Keys) == {};
    }

    /** slotToKeyAdd and slotToKeyDel. */
    method SlotToKeyUpdate(k: Bytes, add: bool)
      requires counts.Length == SLOTS
      modifies `index, counts
      ensures index == (var e := Indexed(HashSlot(crc, k), k); if add then old(index) + {e} else old(index) - {e})
      ensures forall s | 0 <= s < SLOTS ::
                counts[s] == old(counts[s]) + if s == HashSlot(crc, k) then (if add then 1 else -1) else 0
    {
      var slot := KeyHashSlot(crc, k);
      counts[slot] := counts[slot] + if add then 1 else -1;
      var e := Prefix(slot) + k;
      if add { index := index + {e}; } else { index := index - {e}; }
    }

    /** dbAdd, which asserts that the key is new. */
    method Add(k: Bytes, v: Val)
      requires Valid() && k !in dict
      modifies `dict, `index, counts
      ensures Valid() && dict == old(dict)[k := v]
    {
      ghost var keys := dict.Keys;
      dict := dict[k := v];
      assert dict.Keys == keys + {k};
      SlotToKeyUpdate(k, true);
      IndexAdd(crc, keys, k);
      forall s | 0 <= s < SLOTS ensures counts[s] == |KeysIn(crc, dict.Keys, s)| { CountAdd(crc, keys, k, s); }
    }

    /** dbOverwrite, which asserts that the key exists: deadline and index stay. */
    method Overwrite(k: Bytes, v: Val)
      requires Valid() && k in dict
      modifies `dict
      ensures Valid() && dict == old(dict)[k := v]
    {
      ghost var keys := dict.Keys;
      dict := dict[k := v];
      assert dict.Keys == keys;
    }

    /** dbSyncDelete. */
    method Delete(k: Bytes) returns (deleted: bool)
      requires Valid()
      modifies `dict, `expires, `index, counts
      ensures Valid() && deleted == (k in old(dict))
      ensures dict == old(dict) - {k} && expires == old(expires) - {k}
    {
      expires := expires - {k};
      deleted := k in dict;
      if deleted {
        ghost var keys := dict.Keys;
        dict := dict - {k};
        assert dict.Keys == keys - {k};
        SlotToKeyUpdate(k, false);
        IndexRemove(crc, keys, k);
        forall s | 0 <= s < SLOTS ensures counts[s] == |KeysIn(crc, dict.Keys, s)| { CountRemove(crc, keys, k, s); }
      } else {
        assert dict - {k} == dict;
      }
    }

    /** removeExpire, which asserts that the key exists. */
    method RemoveExpire(k: Bytes) returns (removed: bool)
      requires Valid() && k in dict
      modifies `expires
      ensures Valid() && expires == old(expires) - {k} && removed == (k in old(expires))
    {
      removed := k in expires;
      expires := expires - {k};
    }

    /** setExpire, which asserts that the key exists. */
    method SetExpire(k: Bytes, when: int)
      requires Valid() && k in dict
      modifies `expires
      ensures Valid() && expires == old(expires)[k := when]
    {
      expires := expires[k := when];
    }

    /** getExpire: its assertion never fires. */
    method GetExpire(k: Bytes) returns (when: int)
      requires Valid()
      ensures when == if k in expires then expires[k] else -1
      ensures when != -1 ==> k in dict
    {
      if k !in expires { return -1; }
      assert k in dict;
      when := expires[k];
    }

    /** expireIfNeeded: a replica leaves expired keys to its master. */
    method ExpireIfNeeded(k: Bytes, now: int, replica: bool)
      requires Valid()
      modifies `dict, `expires, `index, counts
      ensures Valid()
      ensures var gone := Evicted(old(expires), k, now, replica);
              dict == old(dict) - gone && expires == old(expires) - gone
    {
      var when := GetExpire(k);
      if when < 0 || now <= when || replica {
        assert dict - {} == dict && expires - {} == expires;
        return;
      }
      var _ := Delete(k);
    }

    /** setKey: whether the old value had expired makes no difference. */
    method SetKey(k: Bytes, v: Val, now: int, replica: bool)
      requires Valid()
      modifies `dict, `expires, `index, counts
      ensures Valid() && dict == old(dict)[k := v] && expires == old(expires) - {k}
    {
      hide IndexOf, KeysIn, HashSlot;
      ExpireIfNeeded(k, now, replica);
      if k !in dict { Add(k, v); } else { Overwrite(k, v); }
      var _ := RemoveExpire(k);
    }

    /** The end of renameGenericCommand, once the destination is gone. */
    method MoveKey(src: Bytes, dst: Bytes, o: Val, expire: int)
      requires Valid() && src != dst && dst !in dict
      modifies `dict, `expires, `index, counts
      ensures Valid() && dict == old(dict)[dst := o] - {src}
      ensures expires == (if expire != -1 then old(expires)[dst := expire] else old(expires)) - {src}
    {
      hide IndexOf, KeysIn, HashSlot;
      Add(dst, o);
      if expire != -1 { SetExpire(dst, expire); }
      var _ := Delete(src);
    }

    /** renameGenericCommand: 0 for a missing source, 1 for done, 2 for refused by nx or the same key.  An
        expired source is missing, and an expired destination is no obstacle. */
    method Rename(src: Bytes, dst: Bytes, nx: bool, now: int, replica: bool) returns (code: nat)
      requires Valid()
      modifies `dict, `expires, `index, counts
      ensures Valid()
      ensures var gone1 := Evicted(old(expires), src, now, replica);
              var d1, e1 := old(dict) - gone1, old(expires) - gone1;
              var gone2 := Evicted(e1, dst, now, replica);
              var d2, e2 := d1 - gone2, e1 - gone2;
              if src !in d1 then code == 0 && dict == d1 && expires == e1
              else if src == dst then code == 2 && dict == d1 && expires == e1
              else if nx && dst in d2 then code == 2 && dict == d2 && expires == e2
              else code == 1 && dict == (d2 - {src})[dst := d2[src]] && expires == RenamedExpires(e2, src, dst)
    {
      hide IndexOf, KeysIn, HashSlot;
      ExpireIfNeeded(src, now, replica);
      if src !in dict { return 0; }
      if src == dst { return 2; }
      var o := dict[src];
      var expire := GetExpire(src);
      ExpireIfNeeded(dst, now, replica);
      ghost var d, e := dict, expires;
      if dst in dict {
        if nx { return 2; }
        var _ := Delete(dst);
      }
      assert dict == d - {dst} && expires == e - {dst};
      MoveKey(src, dst, o, expire);
      MovedKey(d, e, src, dst);
      code := 1;
    }

    /** slotToKeyFlush together with emptying the database. */
    method Flush()
      requires Valid()
      modifies `dict, `expires, `index, counts
      ensures Valid() && dict == map[] && expires == map[]
    {
      dict, expires, index := map[], map[], {};
      for i := 0 to SLOTS
        invariant forall s | 0 <= s < i :: counts[s] == 0
        invariant dict == map[] && expires == map[] && index == {}
      {
        counts[i] := 0;
      }
      assert IndexOf(crc, dict.Keys) == {};
      forall s | 0 <= s < SLOTS ensures counts[s] == |KeysIn(crc, dict.Keys, s)| {
        assert KeysIn(crc, dict.Keys, s) == {};
      }
    }

    /** getKeysInSlot: as many keys of the slot as there are, up to count, each once. */
    method GetKeysInSlot(slot: nat, count: nat) returns (keys: seq<Bytes>)
      requires Valid() && slot < SLOTS
      ensures |keys| == if count < counts[slot] then count else counts[slot]
      ensures forall i | 0 <= i < |keys| :: keys[i] in KeysIn(crc, dict.Keys, slot)
      ensures forall i, j | 0 <= i < j < |keys| :: keys[i] != keys[j]
    {
      hide HashSlot, Indexed, Prefix;
      keys := [];
      var p := Prefix(slot);
      var ahead := Ahead(index, p);
      ghost var all := KeysIn(crc, dict.Keys, slot);
      ghost var seen: set<Bytes> := {};
      AllAhead(crc, dict.Keys, slot);
      var left := count;
      while left > 0 && ahead != {}
        invariant |keys| == |seen| == count - left && seen <= all && forall k :: k in seen <==> k in keys
        invariant forall i, j | 0 <= i < j < |keys| :: keys[i] != keys[j]
        invariant ahead <= Ahead(index, p)
        invariant forall k | k in all :: Indexed(slot, k) in ahead <==> k !in seen
        decreases left
      {
        var e := Next(ahead);
        LeastIsInSlot(crc, dict.Keys, ahead, slot, e);
        if e[..2] != p {
          AllSeen(all, seen);
          return;
        }
        KeyTaken(crc, dict.Keys, ahead, slot, e, seen);
        keys := keys + [e[2..]];
        seen := seen + {e[2..]};
        ahead := ahead - {e};
        left := left - 1;
      }
      if left > 0 { AllSeen(all, seen); } else { SubsetSize(seen, all); }
    }

    /** The body of the loop of delKeysInSlot. */
    method DeleteFirst(slot: nat) returns (k: Bytes)
      requires Valid() && slot < SLOTS && counts[slot] != 0
      modifies `dict, `expires, `index, counts
      ensures Valid() && k in KeysIn(crc, old(dict).Keys, slot)
      ensures dict == old(dict) - {k} && expires == old(expires) - {k}
    {
      hide HashSlot, Indexed, Prefix;
      var ahead := Ahead(index, Prefix(slot));
      SomeAhead(crc, dict.Keys, slot);
      var e := Next(ahead);
      LeastIsInSlot(crc, dict.Keys, ahead, slot, e);
      k := e[2..];
      SamePrefix(crc, k, slot);
      var _ := Delete(k);
    }

    /** delKeysInSlot: ends, and removes exactly the keys of the slot. */
    method DelKeysInSlot(slot: nat) returns (j: nat)
      requires Valid() && slot < SLOTS
      modifies `dict, `expires, `index, counts
      ensures Valid() && j == old(counts[slot])
      ensures dict == old(dict) - KeysIn(crc, old(dict).Keys, slot)
      ensures expires == old(expires) - KeysIn(crc, old(dict).Keys, slot)
    {
      hide IndexOf, KeysIn, HashSlot;
      j := 0;
      ghost var gone: set<Bytes> := {};
      ghost var all := KeysIn(crc, dict.Keys, slot);
      while counts[slot] != 0
        invariant Valid() && gone <= all && j == |gone|
        invariant dict == old(dict) - gone && expires == old(expires) - gone
        invariant KeysIn(crc, dict.Keys, slot) == all - gone
        decreases |all - gone|
      {
        ghost var keys := dict.Keys;
        var k := DeleteFirst(slot);
        assert dict.Keys == keys - {k};
        OneLess(crc, keys, k, slot);
        GoneGrows(all, gone, k);
        MinusTwice(old(dict), gone, k);
        MinusTwice(old(expires), gone, k);
        gone := gone + {k};
        j := j + 1;
      }
      assert all - gone == {} by { assert |all - gone| == 0; }
      assert gone == all;
    }
  }

  lemma MinusTwice<V>(m: map<Bytes, V>, gone: set<Bytes>, k: Bytes)
    ensures m - gone - {k} == m - (gone + {k})
  {
  }

  lemma GoneGrows(all: set<Bytes>, gone: set<Bytes>, k: Bytes)
    requires k in all - gone
    ensures all - (gone + {k}) == all - gone - {k}
    ensures |gone + {k}| == |gone| + 1 && |all - gone - {k}| == |all - gone| - 1
  {
  }

  lemma AllAhead(crc: Bytes -> nat, keys: set<Bytes>, slot: nat)
    requires slot < SLOTS
    ensures forall k | k in KeysIn(crc, keys, slot) :: Indexed(slot, k) in Ahead(IndexOf(crc, keys), Prefix(slot))
  {
    forall k | k in KeysIn(crc, keys, slot) ensures Indexed(slot, k) in Ahead(IndexOf(crc, keys), Prefix(slot)) {
      PrefixOrder(slot, slot, k);
    }
  }

  lemma SomeAhead(crc: Bytes -> nat, keys: set<Bytes>, slot: nat)
    requires slot < SLOTS && |KeysIn(crc, keys, slot)| != 0
    ensures exists k :: k in KeysIn(crc, keys, slot) && Indexed(slot, k) in Ahead(IndexOf(crc, keys), Prefix(slot))
  {
    AllAhead(crc, keys, slot);
    var k :| k in KeysIn(crc, keys, slot);
  }

  lemma AllSeen(all: set<Bytes>, seen: set<Bytes>)
    requires seen <= all && forall k | k in all :: k in seen
    ensures |seen| == |all|
  {
    assert seen == all;
  }

  lemma SamePrefix(crc: Bytes -> nat, k: Bytes, slot: nat)
    requires slot < SLOTS && Prefix(HashSlot(crc, k)) == Prefix(slot)
    ensures HashSlot(crc, k) == slot
  {
    assert Prefix(slot)[0] == slot / 256 && Prefix(slot)[1] == slot % 256;
  }

  /** Taking an entry of the slot off the iterator takes one key. */
  lemma KeyTaken(crc: Bytes -> nat, keys: set<Bytes>, ahead: set<Bytes>, slot: nat, e: Bytes, seen: set<Bytes>)
    requires slot < SLOTS && e in ahead && |e| >= 2 && e[2..] in keys
    requires e == Indexed(HashSlot(crc, e[2..]), e[2..]) && e[..2] == Prefix(slot) == Prefix(HashSlot(crc, e[2..]))
    requires forall k | k in KeysIn(crc, keys, slot) :: Indexed(slot, k) in ahead <==> k !in seen
    ensures e[2..] in KeysIn(crc, keys, slot) && e[2..] !in seen
    ensures forall k | k in KeysIn(crc, keys, slot) :: Indexed(slot, k) in ahead - {e} <==> k !in seen + {e[2..]}
  {
    SamePrefix(crc, e[2..], slot);
    forall k | k in KeysIn(crc, keys, slot) ensures Indexed(slot, k) in ahead - {e} <==> k !in seen + {e[2..]} {
      if Indexed(slot, k) == e { IndexedInjective(crc, k, e[2..]); }
    }
  }

  lemma OneLess(crc: Bytes -> nat, keys: set<Bytes>, k: Bytes, slot: nat)
    ensures KeysIn(crc, keys - {k}, slot) == KeysIn(crc, keys, slot) - {k}
  {
  }
}
