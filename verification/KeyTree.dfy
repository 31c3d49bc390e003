/** Key derivation and persistence (client_proxy/key_manager.go). */
module KeyTree {
  import opened Bytes
  import opened TSet

  const KEY_SIZE: nat := 32

  type Key = k: Bytes | |k| == KEY_SIZE witness Zeros(KEY_SIZE)

  // ---------- the tree ----------

  /** The second half of the digest first, then the first half. */
  function DeriveChildren(p: Primitives, parent: Key): (r: seq<Key>)
    ensures |r| == 2
  {
    var digest := p.sha512(parent);
    [digest[KEY_SIZE..], digest[..KEY_SIZE]]
  }

  /** Node k of the infinite tree, numbered breadth first: 2j + 1 and 2j + 2 are the children of j. */
  function Node(p: Primitives, master: Key, k: nat): Key {
    if k == 0 then master else DeriveChildren(p, Node(p, master, (k - 1) / 2))[(k - 1) % 2]
  }

  function Derived(p: Primitives, master: Key, n: nat): seq<Key> {
    seq(2 * ((n + 1) / 2), i requires 0 <= i < 2 * ((n + 1) / 2) => Node(p, master, i + 1))
  }

  lemma NodeAt(p: Primitives, master: Key, k: nat, parent: nat, side: nat)
    requires k > 0 && (k - 1) / 2 == parent && (k - 1) % 2 == side
    ensures Node(p, master, k) == DeriveChildren(p, Node(p, master, parent))[side]
  {
  }

  /** Consecutive nodes of the tree. */
  ghost predicate NodesFrom(p: Primitives, master: Key, start: nat, q: seq<Key>) {
    forall j :: 0 <= j < |q| ==> q[j] == Node(p, master, start + j)
  }

  lemma NodesJoin(p: Primitives, master: Key, start: nat, q: seq<Key>, k: nat)
    requires NodesFrom(p, master, start, q) && start + |q| == 2 * k + 1
    ensures NodesFrom(p, master, start, q + DeriveChildren(p, Node(p, master, k)))
  {
    NodeAt(p, master, 2 * k + 1, k, 0);
    NodeAt(p, master, 2 * k + 2, k, 1);
  }

  /** The queue loop. The output is the first nodes below the root, in breadth-first order. */
  method InverseHashTreeKeyDerivation(p: Primitives, masterKey: Key, numTargetKids: nat) returns (childKeys: seq<Key>)
    ensures childKeys == Derived(p, masterKey, numTargetKids)
    ensures |childKeys| == 2 * ((numTargetKids + 1) / 2)
    ensures numTargetKids > 0 ==> childKeys[0] == p.sha512(masterKey)[32..] && childKeys[1] == p.sha512(masterKey)[..32]
    ensures forall j :: 0 <= j && 2 * j + 3 < |childKeys| ==>
              childKeys[2 * j + 2] == p.sha512(childKeys[j])[32..] && childKeys[2 * j + 3] == p.sha512(childKeys[j])[..32]
  {
    childKeys := [];
    var parentQueue: seq<Key> := [masterKey];
    var numDerived := 0;
    ghost var popped := 0;
    while numDerived < numTargetKids
      invariant numDerived == |childKeys| == 2 * popped && numDerived <= 2 * ((numTargetKids + 1) / 2)
      invariant |parentQueue| == popped + 1
      invariant NodesFrom(p, masterKey, popped, parentQueue)
      invariant NodesFrom(p, masterKey, 1, childKeys)
      decreases numTargetKids - numDerived
    {
      var currentParent := parentQueue[0];
      assert currentParent == Node(p, masterKey, popped + 0);
      parentQueue := parentQueue[1..];
      var derivedKeys := DeriveChildren(p, currentParent);
      NodesJoin(p, masterKey, 1, childKeys, popped);
      NodesJoin(p, masterKey, popped + 1, parentQueue, popped);
      childKeys := childKeys + derivedKeys;
      numDerived := numDerived + |derivedKeys|;
      parentQueue := parentQueue + derivedKeys;
      popped := popped + 1;
    }
    DerivedHalves(p, masterKey, numTargetKids);
  }

  lemma DerivedHalves(p: Primitives, master: Key, n: nat)
    ensures var keys := Derived(p, master, n);
            && (n > 0 ==> keys[0] == p.sha512(master)[32..] && keys[1] == p.sha512(master)[..32])
            && forall j :: 0 <= j && 2 * j + 3 < |keys| ==>
                 keys[2 * j + 2] == p.sha512(keys[j])[32..] && keys[2 * j + 3] == p.sha512(keys[j])[..32]
  {
    var keys := Derived(p, master, n);
    NodeHalves(p, master, 0);
    forall j | 0 <= j && 2 * j + 3 < |keys|
      ensures keys[2 * j + 2] == p.sha512(keys[j])[32..] && keys[2 * j + 3] == p.sha512(keys[j])[..32]
    {
      NodeHalves(p, master, j + 1);
    }
  }

  /** The upper half of a node's digest comes first, the lower half second. */
  lemma NodeHalves(p: Primitives, master: Key, k: nat)
    ensures Node(p, master, 2 * k + 1) == p.sha512(Node(p, master, k))[32..]
    ensures Node(p, master, 2 * k + 2) == p.sha512(Node(p, master, k))[..32]
  {
    NodeAt(p, master, 2 * k + 1, k, 0);
    NodeAt(p, master, 2 * k + 2, k, 1);
  }

  /** A shorter derivation is a prefix of a longer one. */
  lemma DerivedPrefix(p: Primitives, master: Key, m: nat, n: nat)
    requires m <= n
    ensures Derived(p, master, m) <= Derived(p, master, n)
    ensures m <= |Derived(p, master, m)| <= m + 1
  {
  }

  /** One whole level of the tree, from its definition: the children of the level above, in order. */
  function Level(p: Primitives, master: Key, d: nat): (r: seq<Key>)
    ensures |r| == Pow2(d)
  {
    if d == 0 then [master] else AllChildren(p, Level(p, master, d - 1))
  }

  function AllChildren(p: Primitives, parents: seq<Key>): (r: seq<Key>)
    ensures |r| == 2 * |parents|
    ensures forall j :: 0 <= j < |parents| ==>
              r[2 * j] == DeriveChildren(p, parents[j])[0] && r[2 * j + 1] == DeriveChildren(p, parents[j])[1]
  {
    if parents == [] then []
    else AllChildren(p, parents[..|parents| - 1]) + DeriveChildren(p, parents[|parents| - 1])
  }

  /** The numbering lists the tree level by level. */
  lemma {:induction false} LevelNodes(p: Primitives, master: Key, d: nat, j: nat)
    requires j < Pow2(d)
    ensures Level(p, master, d)[j] == Node(p, master, Pow2(d) - 1 + j)
  {
    if d > 0 {
      var parent := Node(p, master, Pow2(d - 1) - 1 + j / 2);
      assert Level(p, master, d)[j] == DeriveChildren(p, parent)[j % 2] by {
        LevelNodes(p, master, d - 1, j / 2);
        LevelStep(p, master, d, j);
      }
      NodeStep(p, master, d, j);
    }
  }

  lemma NodeStep(p: Primitives, master: Key, d: nat, j: nat)
    requires d > 0
    ensures Pow2(d) - 1 + j >= 0 && Pow2(d - 1) - 1 + j / 2 >= 0
    ensures Node(p, master, Pow2(d) - 1 + j) == DeriveChildren(p, Node(p, master, Pow2(d - 1) - 1 + j / 2))[j % 2]
  {
    ParentOf(d, j);
    NodeAt(p, master, Pow2(d) - 1 + j, Pow2(d - 1) - 1 + j / 2, j % 2);
  }

  lemma LevelStep(p: Primitives, master: Key, d: nat, j: nat)
    requires d > 0 && j < Pow2(d)
    ensures Level(p, master, d)[j] == DeriveChildren(p, Level(p, master, d - 1)[j / 2])[j % 2]
  {
    ChildAt(p, Level(p, master, d - 1), j);
  }

  lemma ChildAt(p: Primitives, parents: seq<Key>, j: nat)
    requires j < 2 * |parents|
    ensures AllChildren(p, parents)[j] == DeriveChildren(p, parents[j / 2])[j % 2]
  {
    var k := j / 2;
    assert AllChildren(p, parents)[2 * k] == DeriveChildren(p, parents[k])[0];
    assert AllChildren(p, parents)[2 * k + 1] == DeriveChildren(p, parents[k])[1];
    assert j == 2 * k + j % 2;
  }

  lemma ParentOf(d: nat, j: nat)
    requires d > 0
    ensures Pow2(d) >= 2
    ensures (Pow2(d) - 1 + j - 1) / 2 == Pow2(d - 1) - 1 + j / 2
    ensures (Pow2(d) - 1 + j - 1) % 2 == j % 2
  {
    assert Pow2(d) == 2 * Pow2(d - 1);
  }

  // ---------- persistence ----------

  datatype KeyType = WTrapKey | XTagKey | XIndKey | DHBlindKey | STagKey | DocEncKey

  const NUM_KEYS: nat := 6

  /** KeyType(i) */
  function KeyTypeAt(i: nat): (t: KeyType)
    requires i < NUM_KEYS
    ensures KeyIndex(t) == i
  {
    if i == 0 then WTrapKey else if i == 1 then XTagKey else if i == 2 then XIndKey
    else if i == 3 then DHBlindKey else if i == 4 then STagKey else DocEncKey
  }

  function KeyIndex(t: KeyType): nat {
    match t
    case WTrapKey => 0
    case XTagKey => 1
    case XIndKey => 2
    case DHBlindKey => 3
    case STagKey => 4
    case DocEncKey => 5
  }

  /** keyToBoltKey */
  function BoltKey(t: KeyType): string {
    match t
    case WTrapKey => "k_s"
    case XTagKey => "k_x"
    case XIndKey => "k_i"
    case DHBlindKey => "k_z"
    case STagKey => "k_t"
    case DocEncKey => "doc_key"
  }

  /** The master key's cipher. The extra argument stands for the randomness of one encryption. */
  datatype SecretKey = SecretKey(encrypt: (Bytes, nat) -> Option<Bytes>, decrypt: Bytes -> Option<Bytes>)

  ghost predicate Inverts(mk: SecretKey) {
    forall m, nonce :: mk.encrypt(m, nonce).Some? ==> mk.decrypt(mk.encrypt(m, nonce).value) == Some(m)
  }

  type DbBucket = map<string, Bytes>

  /** A missing key reads as nil. */
  function GetKey(b: DbBucket, t: KeyType): Bytes {
    if BoltKey(t) in b then b[BoltKey(t)] else []
  }

  /** copy into a fixed array: cut off or pad with zeros. */
  function Fit(s: Bytes): (k: Key)
    ensures forall i :: 0 <= i < KEY_SIZE ==> k[i] == if i < |s| then s[i] else 0
  {
    if |s| >= KEY_SIZE then s[..KEY_SIZE] else s + Zeros(KEY_SIZE - |s|)
  }

  predicate AllEncrypt(mk: SecretKey, keys: seq<Key>) {
    forall i :: 0 <= i < |keys| ==> mk.encrypt(keys[i], i).Some?
  }

  method EncryptChildKeys(mk: SecretKey, keys: seq<Key>) returns (r: Option<seq<Bytes>>)
    ensures r.Some? <==> AllEncrypt(mk, keys)
    ensures r.Some? ==> |r.value| == |keys|
    ensures r.Some? ==> forall i :: 0 <= i < |keys| ==> Some(r.value[i]) == mk.encrypt(keys[i], i)
  {
    var encrypted: seq<Bytes> := [];
    for i := 0 to |keys|
      invariant |encrypted| == i
      invariant forall k :: 0 <= k < i ==> mk.encrypt(keys[k], k) == Some(encrypted[k])
    {
      match mk.encrypt(keys[i], i)
      case None => return None;
      case Some(ec) => encrypted := encrypted + [ec];
    }
    r := Some(encrypted);
  }

  /** The first `n` keys written over `b`. */
  function Stored(b: DbBucket, keys: seq<Bytes>, n: nat): DbBucket
    requires n <= NUM_KEYS && n <= |keys|
  {
    if n == 0 then b else Stored(b, keys, n - 1)[BoltKey(KeyTypeAt(n - 1)) := keys[n - 1]]
  }

  method StoreEncryptedKeys(b: DbBucket, keys: seq<Bytes>) returns (r: DbBucket)
    requires |keys| >= NUM_KEYS
    ensures r == Stored(b, keys, NUM_KEYS)
    ensures r == b["k_s" := keys[0]]["k_x" := keys[1]]["k_i" := keys[2]]["k_z" := keys[3]]["k_t" := keys[4]]["doc_key" := keys[5]]
  {
    AllSix(b, keys);
    r := b;
    for i := 0 to NUM_KEYS
      invariant r == Stored(b, keys, i)
    {
      r := r[BoltKey(KeyTypeAt(i)) := keys[i]];
    }
  }

  lemma AllSix(b: DbBucket, keys: seq<Bytes>)
    requires |keys| >= NUM_KEYS
    ensures Stored(b, keys, NUM_KEYS)
         == b["k_s" := keys[0]]["k_x" := keys[1]]["k_i" := keys[2]]["k_z" := keys[3]]["k_t" := keys[4]]["doc_key" := keys[5]]
  {
    var b1 := b["k_s" := keys[0]];
    var b3 := b1["k_x" := keys[1]]["k_i" := keys[2]];
    var b5 := b3["k_z" := keys[3]]["k_t" := keys[4]];
    assert Stored(b, keys, 0) == b;
    assert Stored(b, keys, 1) == b1;
    assert Stored(b, keys, 2) == b1["k_x" := keys[1]];
    assert Stored(b, keys, 3) == b3;
    assert Stored(b, keys, 4) == b3["k_z" := keys[3]];
    assert Stored(b, keys, 5) == b5;
  }

  type KeyMap = map<KeyType, Key>

  /** The key map with entry i holding `keys[i]`, for the first `n`. */
  function MapOf(keys: seq<Key>, n: nat): KeyMap
    requires n <= NUM_KEYS && n <= |keys|
  {
    map t: KeyType | KeyIndex(t) < n :: keys[KeyIndex(t)]
  }

  lemma SixEntries(before: KeyMap, keys: seq<Key>)
    requires |keys| >= NUM_KEYS
    ensures before + MapOf(keys, NUM_KEYS)
         == map[WTrapKey := keys[0], XTagKey := keys[1], XIndKey := keys[2], DHBlindKey := keys[3],
                STagKey := keys[4], DocEncKey := keys[5]]
  {
  }

  /** How many keys can be decrypted before the first that cannot. */
  function Readable(mk: SecretKey, b: DbBucket, i: nat): (n: nat)
    requires i <= NUM_KEYS
    ensures i <= n <= NUM_KEYS
    ensures forall k :: i <= k < n ==> mk.decrypt(GetKey(b, KeyTypeAt(k))).Some?
    ensures n < NUM_KEYS ==> mk.decrypt(GetKey(b, KeyTypeAt(n))).None?
    decreases NUM_KEYS - i
  {
    if i < NUM_KEYS && mk.decrypt(GetKey(b, KeyTypeAt(i))).Some? then Readable(mk, b, i + 1) else i
  }

  /** Among the keys numbered below `n` each is the decrypted one; the others are as before. */
  predicate LoadedBelow(mk: SecretKey, b: DbBucket, before: KeyMap, after: KeyMap, t: KeyType, n: nat) {
    if KeyIndex(t) < n then
      var key := mk.decrypt(GetKey(b, t));
      key.Some? && t in after && after[t] == Fit(key.value)
    else (t in after <==> t in before) && (t in after ==> after[t] == before[t])
  }

  lemma LoadNext(mk: SecretKey, b: DbBucket, before: KeyMap, m: KeyMap, i: nat, next: nat, key: Bytes, more: KeyMap)
    requires next == i + 1 <= NUM_KEYS && forall t: KeyType :: LoadedBelow(mk, b, before, m, t, i)
    requires mk.decrypt(GetKey(b, KeyTypeAt(i))) == Some(key) && more == m[KeyTypeAt(i) := Fit(key)]
    ensures forall t: KeyType :: LoadedBelow(mk, b, before, more, t, next)
  {
    forall t: KeyType ensures LoadedBelow(mk, b, before, more, t, next) {
      assert LoadedBelow(mk, b, before, m, t, i);
      assert KeyIndex(t) == i <==> t == KeyTypeAt(i);
    }
  }

  /** Without the first key loading changes nothing: Get answers nil, which does not decrypt. */
  lemma LoadsNothing(mk: SecretKey, b: DbBucket, before: KeyMap, after: KeyMap)
    requires forall t: KeyType :: LoadedBelow(mk, b, before, after, t, Readable(mk, b, 0))
    requires "k_s" !in b && mk.decrypt([]).None?
    ensures after == before
  {
    assert Readable(mk, b, 0) == 0;
    forall t: KeyType ensures (t in after <==> t in before) && (t in after ==> after[t] == before[t]) {
      assert LoadedBelow(mk, b, before, after, t, Readable(mk, b, 0));
    }
  }

  class KeyManager {
    var keyMap: KeyMap

    constructor ()
      ensures keyMap == map[]
    {
      keyMap := map[];
    }

    method UpdateKeyMap(keys: seq<Key>)
      requires |keys| >= NUM_KEYS
      modifies this
      ensures keyMap == old(keyMap) + MapOf(keys, NUM_KEYS)
      ensures keyMap == map[WTrapKey := keys[0], XTagKey := keys[1], XIndKey := keys[2], DHBlindKey := keys[3],
                            STagKey := keys[4], DocEncKey := keys[5]]
    {
      for i := 0 to NUM_KEYS
        invariant keyMap == old(keyMap) + MapOf(keys, i)
      {
        keyMap := keyMap[KeyTypeAt(i) := keys[i]];
        forall t: KeyType ensures KeyIndex(t) < i + 1 <==> KeyIndex(t) < i || t == KeyTypeAt(i) {
        }
      }
      SixEntries(old(keyMap), keys);
    }

    /** Stops without an error at the first key that does not decrypt, keeping those before it. */
    method LoadDBKeys(b: DbBucket, mk: SecretKey)
      modifies this
      ensures forall t: KeyType :: LoadedBelow(mk, b, old(keyMap), keyMap, t, Readable(mk, b, 0))
    {
      for i := 0 to NUM_KEYS
        invariant i <= Readable(mk, b, 0)
        invariant forall t: KeyType :: LoadedBelow(mk, b, old(keyMap), keyMap, t, i)
      {
        match mk.decrypt(GetKey(b, KeyTypeAt(i)))
        case None => return;
        case Some(decryptedKey) =>
          LoadNext(mk, b, old(keyMap), keyMap, i, i + 1, decryptedKey, keyMap[KeyTypeAt(i) := Fit(decryptedKey)]);
          keyMap := keyMap[KeyTypeAt(i) := Fit(decryptedKey)];
      }
    }
  }

  lemma {:induction false} StoredKeys(b: DbBucket, keys: seq<Bytes>, n: nat, i: nat)
    requires i < n <= NUM_KEYS && n <= |keys|
    ensures GetKey(Stored(b, keys, n), KeyTypeAt(i)) == keys[i]
  {
    if i < n - 1 {
      StoredKeys(b, keys, n - 1, i);
      BoltKeysDistinct(KeyTypeAt(i), KeyTypeAt(n - 1));
    }
  }

  lemma BoltKeysDistinct(t: KeyType, u: KeyType)
    requires t != u
    ensures BoltKey(t) != BoltKey(u)
  {
    assert BoltKey(t)[0] != BoltKey(u)[0] || BoltKey(t)[2] != BoltKey(u)[2];
  }

  /** Each stored key decrypts back to the key it came from. */
  lemma LoadBack(mk: SecretKey, b: DbBucket, keys: seq<Key>, encrypted: seq<Bytes>)
    requires Inverts(mk) && |keys| == |encrypted| == NUM_KEYS
    requires forall i :: 0 <= i < NUM_KEYS ==> Some(encrypted[i]) == mk.encrypt(keys[i], i)
    ensures Readable(mk, Stored(b, encrypted, NUM_KEYS), 0) == NUM_KEYS
    ensures forall t: KeyType ::
              mk.decrypt(GetKey(Stored(b, encrypted, NUM_KEYS), t)) == Some(keys[KeyIndex(t)])
  {
    var stored := Stored(b, encrypted, NUM_KEYS);
    forall t: KeyType ensures mk.decrypt(GetKey(stored, t)) == Some(keys[KeyIndex(t)]) {
      var i := KeyIndex(t);
      StoredKeys(b, encrypted, NUM_KEYS, i);
      assert KeyTypeAt(i) == t;
      assert Some(encrypted[i]) == mk.encrypt(keys[i], i);
    }
  }

  /** performRegularSetup on what performInitialSetup stored. */
  method Restart(mk: SecretKey, b: DbBucket, ghost keys: seq<Key>, encrypted: seq<Bytes>) returns (k: KeyManager)
    requires Inverts(mk) && |keys| == |encrypted| == NUM_KEYS
    requires forall i :: 0 <= i < NUM_KEYS ==> Some(encrypted[i]) == mk.encrypt(keys[i], i)
    ensures fresh(k) && k.keyMap == MapOf(keys, NUM_KEYS)
  {
    k := new KeyManager();
    var stored := StoreEncryptedKeys(b, encrypted);
    k.LoadDBKeys(stored, mk);
    LoadBack(mk, b, keys, encrypted);
    forall t: KeyType ensures t in k.keyMap && k.keyMap[t] == keys[KeyIndex(t)] {
      assert LoadedBelow(mk, stored, map[], k.keyMap, t, NUM_KEYS);
      assert mk.decrypt(GetKey(stored, t)) == Some(keys[KeyIndex(t)]);
    }
  }

  /** First start, then restart: what performInitialSetup derives, encrypts and stores,
      performRegularSetup loads back unchanged, for every master key. `ok` is false when a key
      could not be encrypted. */
  method SetupThenRestart(p: Primitives, mk: SecretKey, masterKey: Key, b: DbBucket)
    returns (first: KeyManager, second: KeyManager, ok: bool)
    requires Inverts(mk)
    ensures ok <==> AllEncrypt(mk, Derived(p, masterKey, NUM_KEYS))
    ensures ok ==> first.keyMap == second.keyMap == MapOf(Derived(p, masterKey, NUM_KEYS), NUM_KEYS)
  {
    first := new KeyManager();
    var childKeys := InverseHashTreeKeyDerivation(p, masterKey, NUM_KEYS);
    var encryptedKeys := EncryptChildKeys(mk, childKeys);
    ok := encryptedKeys.Some?;
    if ok {
      first.UpdateKeyMap(childKeys);
      second := Restart(mk, b, childKeys, encryptedKeys.value);
    } else {
      second := first;
    }
  }
}
