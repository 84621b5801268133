/**
 * What harness/context.py prices: the numbers a token leaves in the KV cache, counted from the header's shape, and
 * the room a served context takes by that count.
 */
module KvPrice {
  import opened Common
  import opened KvPlan

  /** One cached number: of a key vector or a value vector, of a KV head of a layer. */
  datatype Cached = Cached(layer: nat, head: nat, key: bool, at: nat)

  // ---- the layers, heads and lengths a shape gives ----

  /** The declared layers. */
  function Layers(s: Shape): int {
    match HeadsOf(s)
    case PerLayer(hs) => |hs|
    case One(_) => if s.blocks == 0 then 0 else s.blocks - s.nextn
    case _ => 0
  }

  /** head_count_kv, or head_count where that is not given. */
  function HeadsOf(s: Shape): Heads { if s.kvHeads.Missing? then s.qHeads else s.kvHeads }

  /** KV heads of a layer: its own where the header lists them; else the same for each layer of full attention. */
  function HeadsAt(s: Shape, layer: nat): int {
    match HeadsOf(s)
    case PerLayer(hs) => if layer < |hs| then hs[layer] else 0
    case One(n) => if s.interval > 1 && (layer + 1) % s.interval != 0 then 0 else n
    case _ => 0
  }

  /** `q` is the number of query heads: the most any layer has, and none where the header does not say. */
  predicate IsQueryHeads(h: Heads, q: int) {
    match h
    case PerLayer(hs) => q in hs && forall x <- hs :: x <= q
    case One(n) => q == n
    case _ => q == 0
  }

  /** A vector's length is declared, or the embedding shared out whole among the query heads, or unknown and 0. */
  predicate IsLength(length: int, declared: int, embd: int, q: int) {
    if declared != 0 then length == declared
    else if embd == 0 || q == 0 then length == 0
    else if q > 0 then length * q <= embd < (length + 1) * q
    else (length + 1) * q < embd <= length * q
  }

  /** What the first `n` layers cache for a token, one layer at a time. */
  function LayersCost(s: Shape, n: nat, k: int, v: int): int {
    if n == 0 then 0 else LayersCost(s, n - 1, k, v) + HeadsAt(s, n - 1) * (k + v)
  }

  // ---- the price is that sum ----

  lemma WholeShare(a: int, b: int)
    requires b > 0
    ensures a / b * b <= a < (a / b + 1) * b
  {
    var x := a / b;
    assert a == b * x + a % b;
    assert (x + 1) * b == x * b + b;
  }

  lemma FloorDivIs(a: int, b: int)
    requires b != 0
    ensures IsLength(FloorDiv(a, b), 0, a, b) || a == 0
    ensures a == 0 ==> FloorDiv(a, b) == 0
  {
    var x := FloorDiv(a, b);
    if b > 0 {
      WholeShare(a, b);
    } else {
      WholeShare(-a, -b);
      assert x * (-b) == -(x * b) && (x + 1) * (-b) == -((x + 1) * b);
    }
    FloorDivOfNothing(b);
    hide FloorDiv;
  }

  lemma FloorDivOfNothing(b: int)
    requires b != 0
    ensures FloorDiv(0, b) == 0
  {
  }

  lemma LengthIsUnique(x: int, y: int, declared: int, embd: int, q: int)
    requires IsLength(x, declared, embd, q) && IsLength(y, declared, embd, q)
    ensures x == y
  {
    if declared == 0 && embd != 0 && q != 0 && x != y {
      var lo, hi := Min(x, y), Max(x, y);
      if q > 0 {
        MulMonotone(lo + 1, hi, q);
      } else {
        MulMonotone(lo + 1, hi, -q);
      }
    }
  }

  lemma {:induction false} LargestIs(xs: seq<int>)
    requires xs != []
    ensures Largest(xs) in xs && forall x <- xs :: x <= Largest(xs)
  {
    if |xs| > 1 {
      LargestIs(xs[1..]);
      assert forall x <- xs :: x == xs[0] || x in xs[1..];
    }
  }

  lemma QueryHeadsAre(s: Shape, q: int)
    requires IsQueryHeads(s.qHeads, q)
    ensures QueryHeads(s) == Some(q)
  {
    if s.qHeads.PerLayer? {
      LargestIs(s.qHeads.heads);
    }
  }

  lemma {:induction false} SumConcat(xs: seq<int>, ys: seq<int>)
    ensures Sum(xs + ys) == Sum(xs) + Sum(ys)
  {
    if xs == [] {
      assert xs + ys == ys;
    } else {
      assert (xs + ys)[1..] == xs[1..] + ys;
      SumConcat(xs[1..], ys);
    }
  }

  lemma NextListed(hs: seq<int>, h: int, f: int -> int)
    ensures Sum(Apply(Filter(hs + [h], Bears), f)) == Sum(Apply(Filter(hs, Bears), f)) + if h != 0 then f(h) else 0
  {
    var some, last := Filter(hs, Bears), if h != 0 then [h] else [];
    FilterConcat(hs, [h], Bears);
    assert [h][1..] == [] && Filter([h], Bears) == last;
    assert Apply(some + last, f) == Apply(some, f) + Apply(last, f);
    SumConcat(Apply(some, f), Apply(last, f));
    SumOfOne(f(h));
    assert Apply(last, f) == if h != 0 then [f(h)] else [];
  }

  lemma SumOfOne(x: int)
    ensures Sum([x]) == x
  {
    assert [x][1..] == [];
  }

  /** Where each layer's heads are listed, leaving out the layers with none changes nothing. */
  lemma {:induction false} ListedCost(s: Shape, hs: seq<int>, n: nat, k: int, v: int)
    requires HeadsOf(s) == PerLayer(hs) && n <= |hs|
    ensures Sum(Apply(Filter(hs[..n], Bears), TimesEach(k + v))) == LayersCost(s, n, k, v)
  {
    hide Sum, Apply, Filter;
    if n > 0 {
      ListedCost(s, hs, n - 1, k, v);
      assert hs[..n] == hs[..n - 1] + [hs[n - 1]];
      NextListed(hs[..n - 1], hs[n - 1], TimesEach(k + v));
      assert hs[n - 1] == 0 ==> hs[n - 1] * (k + v) == 0;
    } else {
      assert hs[..0] == [];
      NothingListed(TimesEach(k + v));
    }
  }

  lemma NothingListed(f: int -> int)
    ensures Sum(Apply(Filter([], Bears), f)) == 0
  {
  }

  lemma {:induction false} EvenSum(m: nat, n: int, each: int)
    ensures Sum(Apply(seq(m, _ => n), TimesEach(each))) == m * (n * each)
  {
    var xs := Apply(seq(m, _ => n), TimesEach(each));
    if m > 0 {
      EvenSum(m - 1, n, each);
      var ys := Apply(seq(m - 1, _ => n), TimesEach(each));
      assert xs == [n * each] + ys;
      assert xs[1..] == ys;
      assert m * (n * each) == n * each + (m - 1) * (n * each);
    }
  }

  /** With one count of heads for all, the layers of full attention are each interval's last. */
  lemma {:induction false} EvenCost(s: Shape, heads: int, n: nat, k: int, v: int)
    requires HeadsOf(s) == One(heads)
    ensures LayersCost(s, n, k, v) == (if s.interval > 1 then n / s.interval else n) * (heads * (k + v))
  {
    if n > 0 {
      EvenCost(s, heads, n - 1, k, v);
      var unit := heads * (k + v);
      if s.interval > 1 {
        NextQuotient(n, s.interval);
        if n % s.interval == 0 {
          assert n / s.interval * unit == (n - 1) / s.interval * unit + unit;
        }
      } else {
        assert n * unit == (n - 1) * unit + unit;
      }
    }
  }

  lemma QuotientIs(n: int, d: int, q: int, r: int)
    requires d > 0 && n == d * q + r && 0 <= r < d
    ensures n / d == q && n % d == r
  {
    var x := n / d;
    assert n == d * x + n % d;
    assert d * (q - x) == n % d - r;
    if q > x {
      MulMonotone(1, q - x, d);
    } else if q < x {
      MulMonotone(q - x, -1, d);
    }
  }

  lemma NextQuotient(n: nat, d: int)
    requires n > 0 && d > 1
    ensures n / d == (n - 1) / d + if n % d == 0 then 1 else 0
  {
    var q, r := (n - 1) / d, (n - 1) % d;
    assert n - 1 == d * q + r;
    if r == d - 1 {
      assert d * (q + 1) == d * q + d;
      QuotientIs(n, d, q + 1, 0);
    } else {
      QuotientIs(n, d, q, r + 1);
    }
  }

  /**
   * The price of any shape is what its layers cache, each of them once: a key and a value for every KV head the layer
   * has, and none for the layers that keep no KV. No price exactly where the list of query heads is empty.
   */
  lemma PriceIsTheSum(s: Shape, q: int, k: int, v: int)
    requires IsQueryHeads(s.qHeads, q) && IsLength(k, s.keyLength, s.embd, q) && IsLength(v, s.valueLength, s.embd, q)
    ensures ElementsPerToken(s) == Some(LayersCost(s, Max(Layers(s), 0), k, v))
  {
    QueryHeadsAre(s, q);
    if s.embd != 0 && q != 0 {
      FloorDivIs(s.embd, q);
    }
    var each := if s.embd != 0 && q != 0 then FloorDiv(s.embd, q) else 0;
    LengthIsUnique(k, if s.keyLength != 0 then s.keyLength else each, s.keyLength, s.embd, q);
    LengthIsUnique(v, if s.valueLength != 0 then s.valueLength else each, s.valueLength, s.embd, q);
    HeadsCost(s, k, v);
    hide FloorDiv, IsLength, KvHeads, LayersCost;
  }

  lemma HeadsCost(s: Shape, k: int, v: int)
    ensures Sum(Apply(KvHeads(s), TimesEach(k + v))) == LayersCost(s, Max(Layers(s), 0), k, v)
  {
    hide Sum, Apply, Filter, LayersCost, TimesEach, FloorDiv;
    match HeadsOf(s)
    case PerLayer(hs) =>
      ListedCost(s, hs, |hs|, k, v);
      assert hs[..|hs|] == hs;
    case One(n) => OneCost(s, n, k, v);
    case _ => NothingCached(s, k, v);
  }

  lemma NothingCached(s: Shape, k: int, v: int)
    ensures Sum(Apply([], TimesEach(k + v))) == 0 == LayersCost(s, 0, k, v)
  {
  }

  lemma OneCost(s: Shape, n: int, k: int, v: int)
    requires HeadsOf(s) == One(n)
    ensures Sum(Apply(KvHeads(s), TimesEach(k + v))) == LayersCost(s, Max(Layers(s), 0), k, v)
  {
    var layers := s.blocks - s.nextn;
    var kept := KeptLayers(layers, s.interval);
    EvenCost(s, n, Max(Layers(s), 0), k, v);
    KeptAre(layers, s.interval);
    EvenSum(Max(kept, 0), n, k + v);
    NothingCached(s, k, v);
    hide Sum, Apply, LayersCost, TimesEach, FloorDiv;
    if n == 0 || s.blocks == 0 {
      assert n == 0 ==> n * (k + v) == 0;
      hide KeptLayers;
      assert KvHeads(s) == [];
      Zeros(if s.interval > 1 then Max(Layers(s), 0) / s.interval else Max(Layers(s), 0), n * (k + v));
    } else {
      assert KvHeads(s) == seq(Max(kept, 0), _ => n);
    }
  }

  lemma Zeros(x: int, y: int)
    ensures x == 0 || y == 0 ==> x * y == 0
  {
  }

  function KeptLayers(layers: int, interval: int): int {
    if interval > 1 then FloorDiv(layers, interval) else layers
  }

  lemma KeptAre(layers: int, interval: int)
    ensures Max(KeptLayers(layers, interval), 0)
         == if interval > 1 then Max(layers, 0) / interval else Max(layers, 0)
  {
    if interval > 1 && layers < 0 {
      assert layers / interval < 0;
    }
  }

  lemma PricedExactly(s: Shape)
    ensures ElementsPerToken(s) == None <==> s.qHeads == PerLayer([])
  {
  }

  // ---- and the sum is the count ----

  /** What one head of a layer caches: a key vector and a value vector. */
  function HeadSet(layer: nat, head: nat, k: nat, v: nat): set<Cached> {
    (set at | 0 <= at < k :: Cached(layer, head, true, at)) + (set at | 0 <= at < v :: Cached(layer, head, false, at))
  }

  /** The numbers a token leaves in the cache. */
  function CachedNumbers(s: Shape, n: nat, k: nat, v: nat): set<Cached> {
    set l, h, c | 0 <= l < n && 0 <= h < HeadsAt(s, l) && c in HeadSet(l, h, k, v) :: c
  }

  lemma {:induction false} VectorCount(layer: nat, head: nat, key: bool, n: nat)
    ensures |set at | 0 <= at < n :: Cached(layer, head, key, at)| == n
  {
    var all := set at | 0 <= at < n :: Cached(layer, head, key, at);
    if n > 0 {
      VectorCount(layer, head, key, n - 1);
      var before := set at | 0 <= at < n - 1 :: Cached(layer, head, key, at);
      assert all == before + {Cached(layer, head, key, n - 1)};
    }
  }

  lemma HeadCount(layer: nat, head: nat, k: nat, v: nat)
    ensures |HeadSet(layer, head, k, v)| == k + v
    ensures forall c <- HeadSet(layer, head, k, v) :: c.layer == layer && c.head == head
  {
    VectorCount(layer, head, true, k);
    VectorCount(layer, head, false, v);
    var keys := set at | 0 <= at < k :: Cached(layer, head, true, at);
    var values := set at | 0 <= at < v :: Cached(layer, head, false, at);
    assert keys !! values;
  }

  /** What the first `heads` heads of a layer cache. */
  function LayerSet(layer: nat, heads: nat, k: nat, v: nat): set<Cached> {
    set h, c | 0 <= h < heads && c in HeadSet(layer, h, k, v) :: c
  }

  lemma LayerSetNext(layer: nat, heads: nat, k: nat, v: nat)
    requires heads > 0
    ensures LayerSet(layer, heads, k, v) == LayerSet(layer, heads - 1, k, v) + HeadSet(layer, heads - 1, k, v)
  {
    hide HeadSet;
  }

  lemma LayerSetOf(layer: nat, heads: nat, k: nat, v: nat)
    ensures forall c <- LayerSet(layer, heads, k, v) :: c.layer == layer && c.head < heads
  {
    forall c <- LayerSet(layer, heads, k, v)
      ensures c.layer == layer && c.head < heads
    {
      var h :| 0 <= h < heads && c in HeadSet(layer, h, k, v);
      HeadCount(layer, h, k, v);
    }
  }

  lemma {:induction false} LayerCount(layer: nat, heads: nat, k: nat, v: nat)
    ensures |LayerSet(layer, heads, k, v)| == heads * (k + v)
  {
    hide HeadSet, LayerSet;
    if heads == 0 {
      NoHeads(layer, k, v);
    } else {
      LayerCount(layer, heads - 1, k, v);
      LayerSetNext(layer, heads, k, v);
      HeadsApart(layer, heads - 1, k, v);
      HeadCount(layer, heads - 1, k, v);
      OneMore(heads, k + v);
    }
  }

  lemma NoHeads(layer: nat, k: nat, v: nat)
    ensures LayerSet(layer, 0, k, v) == {} && 0 * (k + v) == 0
  {
  }

  lemma HeadsApart(layer: nat, heads: nat, k: nat, v: nat)
    ensures LayerSet(layer, heads, k, v) !! HeadSet(layer, heads, k, v)
  {
    LayerSetOf(layer, heads, k, v);
    HeadCount(layer, heads, k, v);
    hide HeadSet, LayerSet;
  }

  lemma OneMore(n: int, each: int)
    ensures n * each == (n - 1) * each + each
  {
  }

  /** A shape of no negative counts. */
  predicate Natural(s: Shape) {
    && s.blocks >= 0 && s.embd >= 0 && s.keyLength >= 0 && s.valueLength >= 0 && s.nextn >= 0
    && NaturalHeads(s.kvHeads) && NaturalHeads(s.qHeads)
  }

  predicate NaturalHeads(h: Heads) {
    match h
    case PerLayer(hs) => forall n <- hs :: n >= 0
    case One(n) => n >= 0
    case _ => true
  }

  lemma CachedNext(s: Shape, n: nat, k: nat, v: nat)
    requires n > 0 && HeadsAt(s, n - 1) >= 0
    ensures CachedNumbers(s, n, k, v) == CachedNumbers(s, n - 1, k, v) + LayerSet(n - 1, HeadsAt(s, n - 1), k, v)
  {
    hide HeadSet, HeadsAt;
  }

  lemma CachedOf(s: Shape, n: nat, k: nat, v: nat)
    ensures forall c <- CachedNumbers(s, n, k, v) :: c.layer < n
  {
    hide HeadsAt;
    forall c <- CachedNumbers(s, n, k, v)
      ensures c.layer < n
    {
      var l, h :| 0 <= l < n && 0 <= h < HeadsAt(s, l) && c in HeadSet(l, h, k, v);
      HeadCount(l, h, k, v);
    }
  }

  lemma {:induction false} LayersCount(s: Shape, n: nat, k: nat, v: nat)
    requires Natural(s)
    ensures |CachedNumbers(s, n, k, v)| == LayersCost(s, n, k, v)
  {
    hide HeadsAt, Natural;
    if n > 0 {
      NaturalAt(s, n - 1);
      LayersCount(s, n - 1, k, v);
      CachedNext(s, n, k, v);
      CachedOf(s, n - 1, k, v);
      LayerCount(n - 1, HeadsAt(s, n - 1), k, v);
      LayerSetOf(n - 1, HeadsAt(s, n - 1), k, v);
      hide CachedNumbers, LayerSet;
      assert CachedNumbers(s, n - 1, k, v) !! LayerSet(n - 1, HeadsAt(s, n - 1), k, v);
    }
  }

  lemma NaturalAt(s: Shape, layer: nat)
    requires Natural(s)
    ensures HeadsAt(s, layer) >= 0
  {
    var heads := HeadsOf(s);
    if heads.PerLayer? && layer < |heads.heads| {
      assert heads.heads[layer] in heads.heads;
    }
  }

  /** The price of a shape is how many numbers a token leaves in the cache. */
  lemma PriceIsTheCount(s: Shape, q: int, k: int, v: int)
    requires Natural(s) && IsQueryHeads(s.qHeads, q)
    requires IsLength(k, s.keyLength, s.embd, q) && IsLength(v, s.valueLength, s.embd, q)
    ensures k >= 0 && v >= 0
    ensures ElementsPerToken(s) == Some(|CachedNumbers(s, Max(Layers(s), 0), k, v)|)
  {
    LengthIsNatural(s, q, k, s.keyLength);
    LengthIsNatural(s, q, v, s.valueLength);
    PriceIsTheSum(s, q, k, v);
    LayersCount(s, Max(Layers(s), 0), k, v);
    hide *;
  }

  lemma LengthIsNatural(s: Shape, q: int, length: int, declared: int)
    requires Natural(s) && IsQueryHeads(s.qHeads, q) && IsLength(length, declared, s.embd, q) && declared >= 0
    ensures length >= 0
  {
    if length < 0 && q > 0 {
      MulMonotone(length + 1, 0, q);
    }
  }

  // ---- the room a served context takes, by that count ----

  /**
   * All the numbers `c` tokens leave, at the cache type's own rate, take less than a byte a token over the room the
   * weights and whatever else is resident leave, and over the cap.
   */
  ghost predicate CacheFits(s: Section, file: File, l: Limits) {
    && file.Readable? && s.cache == l.cache && s.cache in CACHE_BYTES && s.c > 0
    && (Natural(file.shape) ==>
          forall q, k: nat, v: nat | IsQueryHeads(file.shape.qHeads, q)
                                     && IsLength(k, file.shape.keyLength, file.shape.embd, q)
                                     && IsLength(v, file.shape.valueLength, file.shape.embd, q) ::
            var (num, den) := CACHE_BYTES[s.cache];
            s.c * (|CachedNumbers(file.shape, Max(Layers(file.shape), 0), k, v)| * num)
            < (Room(l.budget - l.beside, file.weights, Some(l.cap)) + s.c) * den)
  }

  lemma SectionCacheFits(s: Section, file: File, l: Limits)
    requires SectionFits(s, file, l)
    ensures CacheFits(s, file, l)
  {
    var shape := file.shape;
    hide ElementsPerToken, BytesPerToken, Layers, CACHE_BYTES, Room;
    var (num, den) := CACHE_BYTES[s.cache];
    var per := BytesPerToken(shape, s.cache).value;
    var room := Room(l.budget - l.beside, file.weights, Some(l.cap));
    if Natural(shape) {
      forall q, k: nat, v: nat | IsQueryHeads(shape.qHeads, q) && IsLength(k, shape.keyLength, shape.embd, q)
                                 && IsLength(v, shape.valueLength, shape.embd, q)
        ensures s.c * (|CachedNumbers(shape, Max(Layers(shape), 0), k, v)| * num) < (room + s.c) * den
      {
        PriceIsTheCount(shape, q, k, v);
        hide CachedNumbers, Natural, IsQueryHeads, IsLength;
        MulMonotone(s.c * per + s.c, room + s.c, den);
      }
    }
  }

  /** Every stem in the preset has a row whose file's cache, so counted, fits. */
  lemma ServedCacheFits(rows: seq<Row>, files: string -> File, l: Limits, s: Section)
    requires l.cap >= 0 && s in Preset(PlannedList(rows, files, l), l.cache)
    ensures exists row :: row in rows && row.stem == s.stem && CacheFits(s, files(row.path), l)
  {
    PresetFits(rows, files, l, s);
    hide *;
    var row :| row in rows && row.stem == s.stem && SectionFits(s, files(row.path), l);
    SectionCacheFits(s, files(row.path), l);
  }

  /** 32 layers of 8 KV heads, and an embedding of 4096 shared by 32 query heads. */
  const ORDINARY := Shape(32768, 32, One(8), One(32), 4096, 0, 0, 0, 0)

  lemma OrdinaryCount()
    ensures |CachedNumbers(ORDINARY, 32, 128, 128)| == 65536 && ElementsPerToken(ORDINARY) == Some(65536)
  {
    PriceIsTheCount(ORDINARY, 32, 128, 128);
    EvenCost(ORDINARY, 8, 32, 128, 128);
    LayersCount(ORDINARY, 32, 128, 128);
    hide CachedNumbers, LayersCost, ElementsPerToken;
  }

  lemma OrdinaryChoice()
    ensures Choose(32768, 131072, 0, 0x4000_0000, 1, FLOOR, None) == Choice(8192, 32768, 131072, Memory)
  {
    assert Room(0x4000_0000, 0, None) == 0x4000_0000;
    assert FloorDiv(0x4000_0000, 131072) == 8192;
    assert FitsIn(0x4000_0000, 131072, 1) == 8192;
    hide FitsIn, Room;
  }

  /** 65536 numbers and 131072 bytes a token at f16: a gibibyte of room serves 8192 tokens of the 32768 trained. */
  lemma OrdinaryShape()
    ensures |CachedNumbers(ORDINARY, 32, 128, 128)| == 65536
    ensures BytesPerToken(ORDINARY, "f16") == Some(131072)
    ensures Choose(ORDINARY.trained, 131072, 0, 0x4000_0000, 1, FLOOR, None) == Choice(8192, 32768, 131072, Memory)
  {
    OrdinaryCount();
    OrdinaryChoice();
    hide CachedNumbers, ElementsPerToken, Choose;
    HalfFloats();
  }

  lemma HalfFloats()
    ensures "f16" in CACHE_BYTES && CACHE_BYTES["f16"] == (2, 1) && FloorDiv(65536 * 2, 1) == 131072
  {
  }
}
