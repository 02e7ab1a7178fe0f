/**
  The chained hash tables of HW_10-Log-Parser/parser.c: one kind adds byte counts per URL, the other counts referers.
  A chain is the sequence of its nodes, the head first. Keys are C strings without their NUL.
 */
module LogTables {

  datatype Node = Node(key: seq<int>, amount: int)

  type Chain = seq<Node>
  type Table = seq<Chain>

  const HASH_BASE: int := 5381
  const WORD: int := 0x1_0000_0000_0000_0000

  // ---------- hashing ----------

  /** `hash_string`, in the 64 bits of an unsigned long. */
  function HashFrom(hash: nat, key: seq<int>): nat
    decreases key
  {
    if key == [] then hash else HashFrom((hash * 33 + key[0] % 256) % WORD, key[1..])
  }

  function Hash(key: seq<int>): nat {
    HashFrom(HASH_BASE, key)
  }

  method HashString(key: seq<int>) returns (hash: nat)
    ensures hash == Hash(key)
  {
    hash := HASH_BASE;
    var i := 0;
    while i < |key|
      invariant 0 <= i <= |key|
      invariant HashFrom(hash, key[i..]) == Hash(key)
    {
      assert key[i..][1..] == key[i + 1..];
      var shifted := hash * 32 % WORD;
      Wraps(hash * 32, hash);
      Wraps(hash * 33, key[i] % 256);
      hash := ((shifted + hash) % WORD + key[i] % 256) % WORD;
      i := i + 1;
    }
  }

  /** The hash of a longer string, from that of the string without its last character. */
  lemma HashLonger(key: seq<int>, c: int)
    ensures Hash([]) == 5381 && Hash(key + [c]) == (33 * Hash(key) + c % 256) % 0x1_0000_0000_0000_0000
  {
    HashSnoc(HASH_BASE, key, c);
  }

  lemma {:induction false} HashSnoc(hash: nat, key: seq<int>, c: int)
    ensures HashFrom(hash, key + [c]) == (33 * HashFrom(hash, key) + c % 256) % WORD
    decreases key
  {
    if key == [] {
      assert (key + [c])[1..] == [];
    } else {
      assert (key + [c])[1..] == key[1..] + [c];
      HashSnoc((hash * 33 + key[0] % 256) % WORD, key[1..], c);
    }
  }

  lemma Wraps(a: int, b: int)
    ensures (a % WORD + b) % WORD == (a + b) % WORD
  {
  }

  // ---------- one chain ----------

  /** The place of the first node with this key, or the length of the chain. */
  function Find(chain: Chain, key: seq<int>): (i: nat)
    ensures i <= |chain|
    ensures i < |chain| ==> chain[i].key == key
    ensures forall j :: 0 <= j < i ==> chain[j].key != key
  {
    if chain == [] then 0 else if chain[0].key == key then 0 else 1 + Find(chain[1..], key)
  }

  function Add(chain: Chain, key: seq<int>, n: int): Chain {
    var i := Find(chain, key);
    if i < |chain| then chain[i := Node(key, chain[i].amount + n)] else [Node(key, n)] + chain
  }

  /** What the nodes with this key hold together. */
  function Sum(chain: Chain, key: seq<int>): int {
    if chain == [] then 0 else (if chain[0].key == key then chain[0].amount else 0) + Sum(chain[1..], key)
  }

  predicate Has(chain: Chain, key: seq<int>) {
    exists j :: 0 <= j < |chain| && chain[j].key == key
  }

  predicate Distinct(chain: Chain) {
    forall i, j :: 0 <= i < j < |chain| ==> chain[i].key != chain[j].key
  }

  function Total(chain: Chain): int {
    if chain == [] then 0 else chain[0].amount + Total(chain[1..])
  }

  lemma {:induction false} SumOfUpdate(chain: Chain, i: nat, n: int, key: seq<int>)
    requires i < |chain|
    ensures Sum(chain[i := Node(chain[i].key, chain[i].amount + n)], key) ==
            Sum(chain, key) + (if chain[i].key == key then n else 0)
    ensures Total(chain[i := Node(chain[i].key, chain[i].amount + n)]) == Total(chain) + n
    decreases i
  {
    var after := chain[i := Node(chain[i].key, chain[i].amount + n)];
    if i == 0 {
      assert after[1..] == chain[1..];
    } else {
      assert after[1..] == chain[1..][i - 1 := Node(chain[i].key, chain[i].amount + n)];
      SumOfUpdate(chain[1..], i - 1, n, key);
    }
  }

  /** Adding to a key adds to its sum only, and keeps the keys distinct. */
  lemma AddAdds(chain: Chain, key: seq<int>, n: int, other: seq<int>)
    ensures Sum(Add(chain, key, n), other) == Sum(chain, other) + (if other == key then n else 0)
    ensures Has(Add(chain, key, n), other) <==> Has(chain, other) || other == key
    ensures Total(Add(chain, key, n)) == Total(chain) + n
  {
    var i := Find(chain, key);
    var after := Add(chain, key, n);
    if i < |chain| {
      SumOfUpdate(chain, i, n, other);
      assert forall j :: 0 <= j < |chain| ==> after[j].key == chain[j].key;
    } else {
      assert after[1..] == chain;
      assert forall j :: 0 <= j < |chain| ==> after[j + 1] == chain[j];
      assert after[0].key == key;
    }
  }

  lemma AddKeepsDistinct(chain: Chain, key: seq<int>, n: int)
    requires Distinct(chain)
    ensures Distinct(Add(chain, key, n))
  {
    var i := Find(chain, key);
    var after := Add(chain, key, n);
    if i < |chain| {
      assert forall j :: 0 <= j < |chain| ==> after[j].key == chain[j].key;
    } else {
      assert forall j :: 0 <= j < |chain| ==> after[j + 1] == chain[j];
    }
  }

  // ---------- a table ----------

  function Slot(t: Table, key: seq<int>): (b: nat)
    requires |t| > 0
    ensures b < |t|
  {
    Hash(key) % |t|
  }

  /** Every key is in the bucket its hash selects, no key twice, and no key is empty. */
  ghost predicate Sound(t: Table) {
    && |t| > 0
    && forall b {:trigger t[b]} :: 0 <= b < |t| ==> Distinct(t[b]) && Placed(t, b)
  }

  ghost predicate Placed(t: Table, b: nat)
    requires b < |t|
  {
    forall j {:trigger t[b][j]} :: 0 <= j < |t[b]| ==> t[b][j].key != [] && Slot(t, t[b][j].key) == b
  }

  /** What the table holds for a key. */
  function Amount(t: Table, key: seq<int>): int
    requires |t| > 0
  {
    Sum(t[Slot(t, key)], key)
  }

  predicate Contains(t: Table, key: seq<int>)
    requires |t| > 0
  {
    Has(t[Slot(t, key)], key)
  }

  /** What all its nodes hold together. */
  function Grand(t: Table): int {
    if t == [] then 0 else Grand(t[..|t| - 1]) + Total(t[|t| - 1])
  }

  function Put(t: Table, key: seq<int>, n: int): (r: Table)
    requires |t| > 0
    ensures |r| == |t|
  {
    t[Slot(t, key) := Add(t[Slot(t, key)], key, n)]
  }

  /** `update_url_table` */
  function UpdateUrl(t: Table, url: seq<int>, bytes: int): (r: Table)
    requires |t| > 0
    ensures |r| == |t|
  {
    if url == [] then t else Put(t, url, bytes)
  }

  /** `update_referer_table` */
  function UpdateReferer(t: Table, referer: seq<int>): (r: Table)
    requires |t| > 0
    ensures |r| == |t|
  {
    if referer == [] || referer == [45] then t else Put(t, referer, 1)
  }

  lemma PutKeepsSound(t: Table, key: seq<int>, n: int)
    requires Sound(t) && key != []
    ensures Sound(Put(t, key, n))
  {
    var b, r := Slot(t, key), Put(t, key, n);
    AddKeepsDistinct(t[b], key, n);
    forall c {:trigger r[c]} | 0 <= c < |r| ensures Distinct(r[c]) && Placed(r, c) {
      if c == b {
        var i := Find(t[b], key);
        forall j {:trigger r[b][j]} | 0 <= j < |r[b]| ensures r[b][j].key != [] && Slot(r, r[b][j].key) == b {
          if i < |t[b]| {
            assert r[b][j].key == t[b][j].key;
          } else if j > 0 {
            assert r[b][j] == t[b][j - 1];
          }
        }
      } else {
        assert r[c] == t[c] && Placed(t, c);
        forall j {:trigger r[c][j]} | 0 <= j < |r[c]| ensures r[c][j].key != [] && Slot(r, r[c][j].key) == c {
          assert t[c][j].key != [];
        }
      }
    }
  }

  lemma PutAdds(t: Table, key: seq<int>, n: int, other: seq<int>)
    requires |t| > 0
    ensures Amount(Put(t, key, n), other) == Amount(t, other) + (if other == key then n else 0)
    ensures Contains(Put(t, key, n), other) <==> Contains(t, other) || other == key
  {
    AddAdds(t[Slot(t, key)], key, n, other);
  }

  lemma {:induction false} GrandOfUpdate(t: Table, b: nat, chain: Chain)
    requires b < |t|
    ensures Grand(t[b := chain]) == Grand(t) + Total(chain) - Total(t[b])
  {
    var r, last := t[b := chain], |t| - 1;
    if b == last {
      assert r[..last] == t[..last];
    } else {
      assert r[..last] == t[..last][b := chain];
      GrandOfUpdate(t[..last], b, chain);
    }
  }

  lemma PutGrand(t: Table, key: seq<int>, n: int)
    requires |t| > 0
    ensures Grand(Put(t, key, n)) == Grand(t) + n
  {
    var b := Slot(t, key);
    AddAdds(t[b], key, n, key);
    GrandOfUpdate(t, b, Add(t[b], key, n));
  }

  // ---------- merging ----------

  /** All nodes, bucket by bucket. */
  function Flatten(t: Table): Chain {
    if t == [] then [] else Flatten(t[..|t| - 1]) + t[|t| - 1]
  }

  function PutUrls(t: Table, nodes: Chain): (r: Table)
    requires |t| > 0
    ensures |r| == |t|
    decreases nodes
  {
    if nodes == [] then t
    else
      var last := |nodes| - 1;
      UpdateUrl(PutUrls(t, nodes[..last]), nodes[last].key, nodes[last].amount)
  }

  lemma TakeMore(before: Chain, chain: Chain, k: nat)
    requires k < |chain|
    ensures before + chain[..k] + [chain[k]] == before + chain[..k + 1]
  {
    assert chain[..k] + [chain[k]] == chain[..k + 1];
    assert before + chain[..k] + [chain[k]] == before + (chain[..k] + [chain[k]]);
  }

  lemma OneMoreUrl(t: Table, nodes: Chain, node: Node)
    requires |t| > 0
    ensures PutUrls(t, nodes + [node]) == UpdateUrl(PutUrls(t, nodes), node.key, node.amount)
  {
    assert (nodes + [node])[..|nodes|] == nodes;
  }

  /** `merge_url_tables` */
  function MergeUrls(src: Table, dst: Table): (r: Table)
    requires |dst| > 0
    ensures |r| == |dst|
  {
    PutUrls(dst, Flatten(src))
  }

  function RepeatReferer(t: Table, referer: seq<int>, count: int): (r: Table)
    requires |t| > 0
    ensures |r| == |t|
    decreases count
  {
    if count <= 0 then t else UpdateReferer(RepeatReferer(t, referer, count - 1), referer)
  }

  function PutReferers(t: Table, nodes: Chain): (r: Table)
    requires |t| > 0
    ensures |r| == |t|
    decreases nodes
  {
    if nodes == [] then t
    else
      var last := |nodes| - 1;
      RepeatReferer(PutReferers(t, nodes[..last]), nodes[last].key, nodes[last].amount)
  }

  lemma OneMoreReferer(t: Table, nodes: Chain, node: Node)
    requires |t| > 0
    ensures PutReferers(t, nodes + [node]) == RepeatReferer(PutReferers(t, nodes), node.key, node.amount)
  {
    assert (nodes + [node])[..|nodes|] == nodes;
  }

  /** `merge_referer_tables` */
  function MergeReferers(src: Table, dst: Table): (r: Table)
    requires |dst| > 0
    ensures |r| == |dst|
  {
    PutReferers(dst, Flatten(src))
  }

  lemma {:induction false} SumConcat(a: Chain, b: Chain, key: seq<int>)
    ensures Sum(a + b, key) == Sum(a, key) + Sum(b, key)
    ensures Has(a + b, key) <==> Has(a, key) || Has(b, key)
    ensures Total(a + b) == Total(a) + Total(b)
    decreases a
  {
    if a == [] {
      assert a + b == b;
    } else {
      assert (a + b)[1..] == a[1..] + b;
      SumConcat(a[1..], b, key);
    }
    assert forall j :: 0 <= j < |a| ==> (a + b)[j] == a[j];
    assert forall j :: 0 <= j < |b| ==> (a + b)[|a| + j] == b[j];
  }

  lemma {:induction false} AbsentSum(chain: Chain, key: seq<int>)
    requires !Has(chain, key)
    ensures Sum(chain, key) == 0
  {
    if chain != [] {
      assert chain[0].key != key;
      assert forall j :: 0 <= j < |chain| - 1 ==> chain[1..][j] == chain[j + 1];
      AbsentSum(chain[1..], key);
    }
  }

  lemma OnlyInItsBucket(t: Table, c: nat, key: seq<int>)
    requires c < |t| && Placed(t, c) && Slot(t, key) != c
    ensures !Has(t[c], key)
  {
  }

  lemma {:induction false} FlattenSumAt(t: Table, n: nat, key: seq<int>, b: nat)
    requires b < |t| && n <= |t|
    requires forall c {:trigger t[c]} :: 0 <= c < |t| && c != b ==> !Has(t[c], key)
    ensures Sum(Flatten(t[..n]), key) == if b < n then Sum(t[b], key) else 0
    ensures Has(Flatten(t[..n]), key) <==> b < n && Has(t[b], key)
    ensures Total(Flatten(t[..n])) == Grand(t[..n])
    decreases n
  {
    if n > 0 {
      FlattenSumAt(t, n - 1, key, b);
      var before, last := Flatten(t[..n - 1]), t[n - 1];
      assert t[..n][..n - 1] == t[..n - 1] && t[..n][n - 1] == last;
      SumConcat(before, last, key);
      if n - 1 != b { AbsentSum(last, key); }
    }
  }

  /** The nodes of a sound table hold for a key exactly what its bucket holds. */
  lemma FlattenSum(t: Table, key: seq<int>)
    requires Sound(t)
    ensures Sum(Flatten(t), key) == Amount(t, key)
    ensures Has(Flatten(t), key) <==> Contains(t, key)
    ensures Total(Flatten(t)) == Grand(t)
  {
    var b := Slot(t, key);
    assert forall c {:trigger t[c]} :: 0 <= c < |t| && c != b ==> !Has(t[c], key) by {
      forall c {:trigger t[c]} | 0 <= c < |t| && c != b ensures !Has(t[c], key) {
        OnlyInItsBucket(t, c, key);
      }
    }
    FlattenSumAt(t, |t|, key, b);
    assert t[..|t|] == t;
  }

  // ---------- what a table reflects ----------

  /** The table holds exactly the sums of these additions, no key twice, every key where its hash says. */
  ghost predicate Reflects(t: Table, log: Chain) {
    && Sound(t)
    && (forall key {:trigger Amount(t, key)} {:trigger Sum(log, key)} :: Amount(t, key) == Sum(log, key))
    && (forall key {:trigger Contains(t, key)} {:trigger Has(log, key)} :: Contains(t, key) <==> Has(log, key))
    && Grand(t) == Total(log)
  }

  lemma {:induction false} EmptyGrand(t: Table)
    requires forall b :: 0 <= b < |t| ==> t[b] == []
    ensures Grand(t) == 0
  {
    if t != [] { EmptyGrand(t[..|t| - 1]); }
  }

  lemma EmptyReflects(t: Table)
    requires |t| > 0 && forall b :: 0 <= b < |t| ==> t[b] == []
    ensures Reflects(t, [])
  {
    EmptyGrand(t);
  }

  lemma PutReflects(t: Table, log: Chain, key: seq<int>, n: int)
    requires Reflects(t, log) && key != []
    ensures Reflects(Put(t, key, n), log + [Node(key, n)])
  {
    var r, now := Put(t, key, n), log + [Node(key, n)];
    PutKeepsSound(t, key, n);
    PutGrand(t, key, n);
    forall other ensures Amount(r, other) == Sum(now, other) && (Contains(r, other) <==> Has(now, other)) {
      PutAdds(t, key, n, other);
      SumConcat(log, [Node(key, n)], other);
      assert Sum([Node(key, n)], other) == if other == key then n else 0;
      assert Has([Node(key, n)], other) <==> other == key by { assert [Node(key, n)][0].key == key; }
      assert Amount(t, other) == Sum(log, other);
      assert Contains(t, other) <==> Has(log, other);
    }
    SumConcat(log, [Node(key, n)], key);
    assert Total([Node(key, n)]) == n;
  }

  /** Logs that agree on every key are reflected by the same tables. */
  ghost predicate SameSums(a: Chain, b: Chain) {
    && (forall key {:trigger Sum(a, key)} {:trigger Sum(b, key)} :: Sum(a, key) == Sum(b, key))
    && (forall key {:trigger Has(a, key)} {:trigger Has(b, key)} :: Has(a, key) <==> Has(b, key))
    && Total(a) == Total(b)
  }

  lemma ReflectsSame(t: Table, a: Chain, b: Chain)
    requires Reflects(t, a) && SameSums(a, b)
    ensures Reflects(t, b)
  {
    forall key ensures Amount(t, key) == Sum(b, key) && (Contains(t, key) <==> Has(b, key)) {
      assert Amount(t, key) == Sum(a, key);
      assert Contains(t, key) <==> Has(a, key);
    }
  }

  lemma {:induction false} PutUrlsReflects(t: Table, log: Chain, nodes: Chain)
    requires Reflects(t, log)
    requires forall j {:trigger nodes[j]} :: 0 <= j < |nodes| ==> nodes[j].key != []
    ensures Reflects(PutUrls(t, nodes), log + nodes)
    decreases nodes
  {
    if nodes == [] {
      assert log + nodes == log;
    } else {
      var last := |nodes| - 1;
      PutUrlsReflects(t, log, nodes[..last]);
      PutReflects(PutUrls(t, nodes[..last]), log + nodes[..last], nodes[last].key, nodes[last].amount);
      assert log + nodes[..last] + [nodes[last]] == log + nodes;
    }
  }

  /** The flattened nodes of a table stand for everything it reflects. */
  lemma FlattenSame(t: Table, log: Chain)
    requires Reflects(t, log)
    ensures SameSums(Flatten(t), log)
  {
    assert t[..|t|] == t;
    forall key ensures Sum(Flatten(t), key) == Sum(log, key) && (Has(Flatten(t), key) <==> Has(log, key)) {
      FlattenSum(t, key);
      assert Amount(t, key) == Sum(log, key);
      assert Contains(t, key) <==> Has(log, key);
    }
    FlattenSum(t, []);
  }

  lemma {:induction false} FlattenKeys(t: Table, n: nat)
    requires Sound(t) && n <= |t|
    ensures forall j {:trigger Flatten(t[..n])[j]} :: 0 <= j < |Flatten(t[..n])| ==> Flatten(t[..n])[j].key != []
    decreases n
  {
    if n > 0 {
      FlattenKeys(t, n - 1);
      assert t[..n][..n - 1] == t[..n - 1];
      assert Placed(t, n - 1);
    }
  }

  lemma SameConcat(a: Chain, b: Chain, c: Chain)
    requires SameSums(b, c)
    ensures SameSums(a + b, a + c)
  {
    forall key ensures Sum(a + b, key) == Sum(a + c, key) && (Has(a + b, key) <==> Has(a + c, key)) {
      SumConcat(a, b, key);
      SumConcat(a, c, key);
      assert Sum(b, key) == Sum(c, key);
      assert Has(b, key) <==> Has(c, key);
    }
    SumConcat(a, b, []);
    SumConcat(a, c, []);
  }

  /** Merging URL tables adds what the two reflect, whatever their sizes. */
  lemma MergeUrlsReflects(src: Table, s: Chain, dst: Table, d: Chain)
    requires Reflects(src, s) && Reflects(dst, d)
    ensures Reflects(MergeUrls(src, dst), d + s)
  {
    assert src[..|src|] == src;
    FlattenKeys(src, |src|);
    PutUrlsReflects(dst, d, Flatten(src));
    FlattenSame(src, s);
    SameConcat(d, Flatten(src), s);
    ReflectsSame(MergeUrls(src, dst), d + Flatten(src), d + s);
  }

  /** A referer that is counted: neither empty nor a dash. */
  predicate Counted(referer: seq<int>) {
    referer != [] && referer != [45]
  }

  /** A log of referers: every entry counts some number of visits to a referer that is counted. */
  ghost predicate RefererLog(log: Chain) {
    forall j {:trigger log[j]} :: 0 <= j < |log| ==> Counted(log[j].key) && log[j].amount >= 1
  }

  lemma {:induction false} RepeatReflects(t: Table, log: Chain, referer: seq<int>, count: int)
    requires Reflects(t, log) && Counted(referer) && count >= 1
    ensures Reflects(RepeatReferer(t, referer, count), log + [Node(referer, count)])
    decreases count
  {
    if count == 1 {
      assert RepeatReferer(t, referer, 0) == t;
      PutReflects(t, log, referer, 1);
    } else {
      RepeatReflects(t, log, referer, count - 1);
      PutReflects(RepeatReferer(t, referer, count - 1), log + [Node(referer, count - 1)], referer, 1);
      Combine(log, referer, count - 1, 1);
      ReflectsSame(RepeatReferer(t, referer, count), log + [Node(referer, count - 1)] + [Node(referer, 1)],
                   log + [Node(referer, count)]);
    }
  }

  lemma Combine(log: Chain, key: seq<int>, m: int, n: int)
    ensures SameSums(log + [Node(key, m)] + [Node(key, n)], log + [Node(key, m + n)])
  {
    var first, second, one := [Node(key, m)], [Node(key, n)], [Node(key, m + n)];
    assert log + first + second == log + (first + second);
    assert first[0].key == key && second[0].key == key && one[0].key == key;
    forall other
      ensures Sum(first + second, other) == Sum(one, other) && (Has(first + second, other) <==> Has(one, other))
    {
      SumConcat(first, second, other);
    }
    SumConcat(first, second, key);
    assert Total(first) == m && Total(second) == n && Total(one) == m + n;
    SameConcat(log, first + second, one);
  }

  lemma {:induction false} PutReferersReflects(t: Table, log: Chain, nodes: Chain)
    requires Reflects(t, log) && RefererLog(nodes)
    ensures Reflects(PutReferers(t, nodes), log + nodes)
    decreases nodes
  {
    if nodes == [] {
      assert log + nodes == log;
    } else {
      var last := |nodes| - 1;
      PutReferersReflects(t, log, nodes[..last]);
      RepeatReflects(PutReferers(t, nodes[..last]), log + nodes[..last], nodes[last].key, nodes[last].amount);
      assert log + nodes[..last] + [nodes[last]] == log + nodes;
    }
  }

  /** In a referer table every node counts at least one visit to a referer that is counted. */
  ghost predicate Counts(t: Table) {
    forall b, j {:trigger t[b][j]} :: 0 <= b < |t| && 0 <= j < |t[b]| ==> Counted(t[b][j].key) && t[b][j].amount >= 1
  }

  lemma UpdateCounts(t: Table, referer: seq<int>)
    requires |t| > 0 && Counts(t)
    ensures Counts(UpdateReferer(t, referer))
  {
    if Counted(referer) {
      var c: nat, r: Table := Slot(t, referer), UpdateReferer(t, referer);
      var i := Find(t[c], referer);
      forall b: nat, j: nat {:trigger r[b][j]} | 0 <= b < |r| && 0 <= j < |r[b]|
        ensures Counted(r[b][j].key) && r[b][j].amount >= 1 {
        if b == c {
          if i < |t[c]| {
            assert Counted(t[c][j].key);
          } else if j > 0 {
            assert r[c][j] == t[c][j - 1];
          }
        } else {
          assert r[b][j] == t[b][j];
        }
      }
    }
  }

  lemma {:induction false} RepeatCounts(t: Table, referer: seq<int>, count: int)
    requires |t| > 0 && Counts(t)
    ensures Counts(RepeatReferer(t, referer, count))
    decreases count
  {
    if count > 0 {
      RepeatCounts(t, referer, count - 1);
      UpdateCounts(RepeatReferer(t, referer, count - 1), referer);
    }
  }

  lemma {:induction false} PutReferersCounts(t: Table, nodes: Chain)
    requires |t| > 0 && Counts(t)
    ensures Counts(PutReferers(t, nodes))
    decreases nodes
  {
    if nodes != [] {
      var last := |nodes| - 1;
      PutReferersCounts(t, nodes[..last]);
      RepeatCounts(PutReferers(t, nodes[..last]), nodes[last].key, nodes[last].amount);
    }
  }

  lemma {:induction false} FlattenCounts(t: Table, n: nat)
    requires Counts(t) && n <= |t|
    ensures RefererLog(Flatten(t[..n]))
    decreases n
  {
    if n > 0 {
      FlattenCounts(t, n - 1);
      assert t[..n][..n - 1] == t[..n - 1];
    }
  }

  /** Merging referer tables, one visit at a time, adds what the two reflect. */
  lemma MergeReferersReflects(src: Table, s: Chain, dst: Table, d: Chain)
    requires Reflects(src, s) && Reflects(dst, d) && Counts(src) && Counts(dst)
    ensures Reflects(MergeReferers(src, dst), d + s) && Counts(MergeReferers(src, dst))
  {
    assert src[..|src|] == src;
    FlattenCounts(src, |src|);
    PutReferersReflects(dst, d, Flatten(src));
    PutReferersCounts(dst, Flatten(src));
    FlattenSame(src, s);
    SameConcat(d, Flatten(src), s);
    ReflectsSame(MergeReferers(src, dst), d + Flatten(src), d + s);
  }

  // ---------- the tables in memory ----------

  /** `UrlHashTable` and `RefererHashTable`, which have the same shape. */
  class HashTable {
    var buckets: array<Chain>

    ghost predicate Valid()
      reads this
    {
      buckets.Length > 0
    }

    /** `create_url_table`, `create_referer_table`: all chains empty. */
    constructor (size: nat)
      requires size > 0
      ensures Valid() && fresh(buckets) && buckets.Length == size
      ensures Reflects(buckets[..], []) && Counts(buckets[..])
    {
      buckets := new Chain[size](_ => []);
      new;
      EmptyReflects(buckets[..]);
    }

    /** The walk along the chain, and the update in place or the new head. */
    method Bump(key: seq<int>, n: int)
      requires Valid()
      modifies buckets
      ensures buckets[..] == Put(old(buckets[..]), key, n)
    {
      var hash := HashString(key);
      var b := hash % buckets.Length;
      var chain, current := buckets[b], 0;
      while current < |chain| && chain[current].key != key
        invariant 0 <= current <= |chain|
        invariant forall j :: 0 <= j < current ==> chain[j].key != key
      {
        current := current + 1;
      }
      assert current == Find(chain, key);
      if current < |chain| {
        buckets[b] := chain[current := Node(key, chain[current].amount + n)];
      } else {
        buckets[b] := [Node(key, n)] + chain;
      }
    }

    /** `update_url_table` */
    method AddUrl(url: seq<int>, bytes: int)
      requires Valid()
      modifies buckets
      ensures buckets[..] == UpdateUrl(old(buckets[..]), url, bytes)
    {
      if url != [] { Bump(url, bytes); }
    }

    /** `update_referer_table` */
    method AddReferer(referer: seq<int>)
      requires Valid()
      modifies buckets
      ensures buckets[..] == UpdateReferer(old(buckets[..]), referer)
    {
      if referer != [] && referer != [45] { Bump(referer, 1); }
    }

    /** The walk along one chain of the source of a merge. */
    method WalkUrls(chain: Chain, ghost t: Table, ghost before: Chain)
      requires Valid() && |t| > 0
      requires buckets[..] == PutUrls(t, before)
      modifies buckets
      ensures buckets[..] == PutUrls(t, before + chain)
    {
      var current := 0;
      ghost var done := before;
      while current < |chain|
        invariant 0 <= current <= |chain|
        invariant done == before + chain[..current]
        invariant buckets[..] == PutUrls(t, done)
      {
        AddUrl(chain[current].key, chain[current].amount);
        OneMoreUrl(t, done, chain[current]);
        TakeMore(before, chain, current);
        done := done + [chain[current]];
        current := current + 1;
      }
      assert chain[..current] == chain;
    }

    /** `merge_url_tables`, into this table. */
    method MergeUrlsFrom(src: HashTable)
      requires Valid() && src.Valid() && src.buckets != buckets
      modifies buckets
      ensures buckets[..] == MergeUrls(src.buckets[..], old(buckets[..]))
    {
      var i := 0;
      while i < src.buckets.Length
        invariant 0 <= i <= src.buckets.Length
        invariant buckets[..] == PutUrls(old(buckets[..]), Flatten(src.buckets[..i]))
      {
        WalkUrls(src.buckets[i], old(buckets[..]), Flatten(src.buckets[..i]));
        assert src.buckets[..i + 1][..i] == src.buckets[..i];
        i := i + 1;
      }
      assert src.buckets[..i] == src.buckets[..];
    }

    /** The walk along one chain of the source of a merge. */
    method WalkReferers(chain: Chain, ghost t: Table, ghost before: Chain)
      requires Valid() && |t| > 0
      requires buckets[..] == PutReferers(t, before)
      modifies buckets
      ensures buckets[..] == PutReferers(t, before + chain)
    {
      var current := 0;
      ghost var done := before;
      while current < |chain|
        invariant 0 <= current <= |chain|
        invariant done == before + chain[..current]
        invariant buckets[..] == PutReferers(t, done)
      {
        Repeat(chain[current].key, chain[current].amount);
        OneMoreReferer(t, done, chain[current]);
        TakeMore(before, chain, current);
        done := done + [chain[current]];
        current := current + 1;
      }
      assert chain[..current] == chain;
    }

    /** `merge_referer_tables`, into this table. */
    method MergeReferersFrom(src: HashTable)
      requires Valid() && src.Valid() && src.buckets != buckets
      modifies buckets
      ensures buckets[..] == MergeReferers(src.buckets[..], old(buckets[..]))
    {
      var i := 0;
      while i < src.buckets.Length
        invariant 0 <= i <= src.buckets.Length
        invariant buckets[..] == PutReferers(old(buckets[..]), Flatten(src.buckets[..i]))
      {
        WalkReferers(src.buckets[i], old(buckets[..]), Flatten(src.buckets[..i]));
        assert src.buckets[..i + 1][..i] == src.buckets[..i];
        i := i + 1;
      }
      assert src.buckets[..i] == src.buckets[..];
    }

    /** The inner loop of the referer merge: one update per visit. */
    method Repeat(referer: seq<int>, count: int)
      requires Valid()
      modifies buckets
      ensures buckets[..] == RepeatReferer(old(buckets[..]), referer, count)
    {
      var j := 0;
      while j < count
        invariant 0 <= j && (j <= count || count < 0) && (count <= 0 ==> j == 0)
        invariant buckets[..] == RepeatReferer(old(buckets[..]), referer, j)
      {
        AddReferer(referer);
        j := j + 1;
      }
    }

    /** `url_table_to_array`, `referer_table_to_array`: a first pass counts the nodes, a second lists them. */
    method ToArray() returns (nodes: array<Node>)
      requires Valid()
      ensures fresh(nodes) && nodes[..] == Flatten(buckets[..])
    {
      var count := CountNodes();
      nodes := new Node[count](_ => Node([], 0));
      ghost var t := buckets[..];
      var index, i := 0, 0;
      while i < buckets.Length
        invariant 0 <= i <= buckets.Length && buckets[..] == t
        invariant fresh(nodes) && nodes.Length == |Flatten(t)|
        invariant index == |Flatten(t[..i])|
        invariant index <= nodes.Length && nodes[..index] == Flatten(t[..i])
      {
        var chain := buckets[i];
        assert t[..i + 1][..i] == t[..i] && t[..i + 1][i] == chain;
        FlattenGrows(t, i + 1);
        Fill(nodes, index, chain);
        index := index + |chain|;
        i := i + 1;
      }
      assert t[..i] == t;
    }

    method Fill(nodes: array<Node>, index: nat, chain: Chain)
      requires index + |chain| <= nodes.Length
      modifies nodes
      ensures nodes[..index + |chain|] == old(nodes[..index]) + chain
    {
      var k := 0;
      while k < |chain|
        invariant 0 <= k <= |chain|
        invariant nodes[..index + k] == old(nodes[..index]) + chain[..k]
      {
        nodes[index + k] := chain[k];
        k := k + 1;
      }
      assert chain[..k] == chain;
    }

    method CountNodes() returns (count: nat)
      requires Valid()
      ensures count == |Flatten(buckets[..])|
    {
      count := 0;
      var i := 0;
      while i < buckets.Length
        invariant 0 <= i <= buckets.Length
        invariant count == |Flatten(buckets[..i])|
      {
        assert buckets[..i + 1][..i] == buckets[..i];
        count := count + |buckets[i]|;
        i := i + 1;
      }
      assert buckets[..i] == buckets[..];
    }
  }

  lemma {:induction false} FlattenGrows(t: Table, n: nat)
    requires n <= |t|
    ensures |Flatten(t[..n])| <= |Flatten(t)|
    decreases |t| - n
  {
    if n < |t| {
      FlattenGrows(t, n + 1);
      assert t[..n + 1][..n] == t[..n];
    } else {
      assert t[..n] == t;
    }
  }
}
