/**
 * The instrument registry of bot.py: a dictionary from display label to the
 * ClickHouse table that holds that instrument's updates. Python dictionaries
 * keep insertion order, so the registry is modelled as a sequence of entries
 * with dictionary insertion semantics.
 */
module Registry {
  import opened Seqs

  /** One (label, table key) pair of the `instruments` dictionary. */
  datatype Entry = Entry(name: string, table: string)

  function Labels(d: seq<Entry>): (ls: seq<string>)
    ensures |ls| == |d|
    ensures forall i :: 0 <= i < |d| ==> ls[i] == d[i].name
  {
    if d == [] then [] else [d[0].name] + Labels(d[1..])
  }

  predicate Distinct<T(==)>(s: seq<T>) {
    forall i, j :: 0 <= i < j < |s| ==> s[i] != s[j]
  }

  /**
   * No label occurs twice, as in any dictionary: Distinct(Labels(d)), stated
   * on the entries themselves (UniqueLabelsDistinct).
   */
  predicate UniqueLabels(d: seq<Entry>) {
    forall i, j :: 0 <= i < j < |d| ==> d[i].name != d[j].name
  }

  /** Unique labels means the label sequence is Distinct. */
  lemma UniqueLabelsDistinct(d: seq<Entry>)
    ensures UniqueLabels(d) <==> Distinct(Labels(d))
  {
    var ls := Labels(d);
    if Distinct(ls) {
      forall i, j | 0 <= i < j < |d| ensures d[i].name != d[j].name {
        assert ls[i] != ls[j];
      }
    }
  }

  /** Position of `label` in `d`, or |d| when it is absent. */
  function IndexOf(d: seq<Entry>, name: string): (k: nat)
    ensures k <= |d|
    ensures k < |d| ==> d[k].name == name
    ensures forall i :: 0 <= i < k ==> d[i].name != name
  {
    if d == [] then 0
    else if d[0].name == name then 0
    else 1 + IndexOf(d[1..], name)
  }

  /**
   * `d[label] = key`: an existing label keeps its position and takes the new
   * key, a new label is appended at the end.
   */
  function Insert(d: seq<Entry>, e: Entry): seq<Entry> {
    var k := IndexOf(d, e.name);
    if k < |d| then d[k := e] else d + [e]
  }

  /** `d.update(other)`: the entries of `other` inserted one after another. */
  function Updated(d: seq<Entry>, other: seq<Entry>): seq<Entry>
    decreases |other|
  {
    if other == [] then d
    else Updated(Insert(d, other[0]), other[1..])
  }

  /**
   * The dictionary view of `d` as an independent reference: the entries
   * written into a map one after another, a later key for a label winning.
   */
  function AsMap(d: seq<Entry>): map<string, string>
    decreases |d|
  {
    if d == [] then map[]
    else AsMap(d[..|d| - 1])[d[|d| - 1].name := d[|d| - 1].table]
  }

  /** Replacing the entry of a label in place is a map update of that label. */
  lemma {:induction false} AsMapReplace(d: seq<Entry>, k: nat, e: Entry)
    requires UniqueLabels(d)
    requires k < |d| && d[k].name == e.name
    ensures AsMap(d[k := e]) == AsMap(d)[e.name := e.table]
    decreases |d|
  {
    var n := |d|;
    var r := d[k := e];
    assert r[..n - 1] == if k == n - 1 then d[..n - 1] else d[..n - 1][k := e];
    if k < n - 1 {
      AsMapReplace(d[..n - 1], k, e);
      assert d[n - 1].name != e.name;
    }
  }

  /**
   * Insert keeps labels unique and acts on the dictionary view as a map
   * update; a known label keeps its position, a new one lands at the end.
   */
  lemma InsertSpec(d: seq<Entry>, e: Entry)
    requires UniqueLabels(d)
    ensures UniqueLabels(Insert(d, e))
    ensures AsMap(Insert(d, e)) == AsMap(d)[e.name := e.table]
    ensures IndexOf(d, e.name) < |d| ==> Labels(Insert(d, e)) == Labels(d)
    ensures IndexOf(d, e.name) == |d| ==> Insert(d, e) == d + [e]
  {
    var k := IndexOf(d, e.name);
    if k < |d| {
      InsertKnown(d, k, e);
    } else {
      InsertNew(d, e);
    }
  }

  /** Overwriting the entry of a known label. */
  lemma InsertKnown(d: seq<Entry>, k: nat, e: Entry)
    requires UniqueLabels(d)
    requires k < |d| && d[k].name == e.name
    ensures UniqueLabels(d[k := e])
    ensures Labels(d[k := e]) == Labels(d)
    ensures AsMap(d[k := e]) == AsMap(d)[e.name := e.table]
  {
    var r := d[k := e];
    assert forall i :: 0 <= i < |d| ==> r[i].name == d[i].name;
    AsMapReplace(d, k, e);
  }

  /** Appending an entry whose label is new. */
  lemma InsertNew(d: seq<Entry>, e: Entry)
    requires UniqueLabels(d)
    requires forall i :: 0 <= i < |d| ==> d[i].name != e.name
    ensures UniqueLabels(d + [e])
    ensures AsMap(d + [e]) == AsMap(d)[e.name := e.table]
  {
    var r := d + [e];
    forall i, j | 0 <= i < j < |r| ensures r[i].name != r[j].name {
      assert r[i] == d[i];
      if j < |d| {
        assert r[j] == d[j];
      }
    }
    assert r[..|d|] == d;
  }

  /** `update` keeps the labels of a dictionary unique. */
  lemma {:induction false} UpdatedUnique(d: seq<Entry>, other: seq<Entry>)
    requires UniqueLabels(d)
    ensures UniqueLabels(Updated(d, other))
    decreases |other|
  {
    if other != [] {
      InsertSpec(d, other[0]);
      UpdatedUnique(Insert(d, other[0]), other[1..]);
    }
  }

  /** The dictionary view of `x + y` depends on `x` only through its view. */
  lemma {:induction false} AsMapAppend(x: seq<Entry>, x': seq<Entry>, y: seq<Entry>)
    requires AsMap(x) == AsMap(x')
    ensures AsMap(x + y) == AsMap(x' + y)
    decreases |y|
  {
    if y == [] {
      assert x + y == x && x' + y == x';
    } else {
      var n := |y|;
      AsMapAppend(x, x', y[..n - 1]);
      assert (x + y)[..|x + y| - 1] == x + y[..n - 1];
      assert (x' + y)[..|x' + y| - 1] == x' + y[..n - 1];
    }
  }

  /**
   * On the dictionary view, `d.update(other)` is the same as writing the
   * entries of `other` after those of `d`, in order.
   */
  lemma {:induction false} UpdatedAsMap(d: seq<Entry>, other: seq<Entry>)
    requires UniqueLabels(d)
    ensures AsMap(Updated(d, other)) == AsMap(d + other)
    decreases |other|
  {
    if other == [] {
      assert d + other == d;
    } else {
      var e, rest := other[0], other[1..];
      var d' := Insert(d, e);
      InsertSpec(d, e);
      assert (d + [e])[..|d|] == d;
      assert [e] + rest == other;
      AppendAssoc(d, [e], rest);
      calc {
        AsMap(Updated(d, other));
        AsMap(Updated(d', rest));
        { UpdatedAsMap(d', rest); }
        AsMap(d' + rest);
        { AsMapAppend(d', d + [e], rest); }
        AsMap(d + [e] + rest);
      }
    }
  }

  /**
   * When no label of `other` is already present (and `other` repeats none),
   * `update` only appends: nothing earlier is overwritten or moved.
   */
  lemma {:induction false} UpdatedFresh(d: seq<Entry>, other: seq<Entry>)
    requires UniqueLabels(d + other)
    ensures Updated(d, other) == d + other
    decreases |other|
  {
    if other == [] {
      assert d + other == d;
    } else {
      var e := other[0];
      assert (d + other)[|d|] == e;
      assert IndexOf(d, e.name) == |d| by {
        forall i | 0 <= i < |d| ensures d[i].name != e.name {
          assert (d + other)[i] == d[i];
        }
      }
      assert Insert(d, e) + other[1..] == d + other;
      UpdatedFresh(Insert(d, e), other[1..]);
    }
  }

  /**
   * The module-level `instruments` dictionary, which bot.py builds from a
   * comprehension and then grows in place with `update`.
   */
  class InstrumentTable {
    var entries: seq<Entry>

    ghost predicate Valid()
      reads this
    {
      UniqueLabels(entries)
    }

    /** A dictionary comprehension: its items inserted in order into `{}`. */
    constructor (items: seq<Entry>)
      ensures Valid()
      ensures entries == Updated([], items)
    {
      entries := Updated([], items);
      UpdatedUnique([], items);
    }

    /** `dict.update(items)`. */
    method Update(items: seq<Entry>)
      requires Valid()
      modifies this
      ensures Valid()
      ensures entries == Updated(old(entries), items)
    {
      UpdatedUnique(entries, items);
      entries := Updated(entries, items);
    }
  }

  // ---------------------------------------------------------------------
  // Static configuration (bot.py lines 46-113, commented-out pairs dropped)

  /** f"{inst} ({segm})" */
  function Label(inst: string, segm: string): string {
    inst + " (" + segm + ")"
  }

  /** f"Binance{segm}_{inst}_Binance_{segm}_PERPETUAL" */
  function BinanceKey(inst: string, segm: string): string {
    "Binance" + segm + "_" + inst + "_Binance_" + segm + "_PERPETUAL"
  }

  /** f"BitMEX_{inst}_BitMEX_PERP" */
  function BitmexKey(inst: string): string {
    "BitMEX_" + inst + "_BitMEX_PERP"
  }

  /** f"Crypto_{inst}_Crypto_{segm}_{'SPOT' if segm == 'Spt' else 'PERP'}" */
  function CryptoKey(inst: string, segm: string): string {
    "Crypto_" + inst + "_Crypto_" + segm + "_" + (if segm == "Spt" then "SPOT" else "PERP")
  }

  /** The dictionary literal of Binance pairs (instrument, segment). */
  const BinancePairs: seq<(string, string)> := [
    ("ADAUSDT", "FutT"), ("BNBUSDT", "FutT"), ("BTCUSDT", "FutT"),
    ("DOGEUSDT", "FutT"), ("ETHUSDT", "FutT"), ("FTMUSDT", "FutT"),
    ("LINKUSDT", "FutT"), ("NEARUSDT", "FutT"), ("SOLUSDT", "FutT"),
    ("XRPUSDT", "FutT"), ("WIFUSDT", "FutT"), ("NOTUSDT", "FutT"),
    ("SUIUSDT", "FutT"), ("RAREUSDT", "FutT")]

  /** The list of BitMEX instruments. */
  const BitmexInsts: seq<string> := ["XBTUSDT", "ETHUSDT", "SOLUSDT"]

  /** The dictionary literal of Crypto pairs (instrument, segment). */
  const CryptoPairs: seq<(string, string)> := [
    ("BTCUSD_PERP", "Fut"), ("ETHUSD_PERP", "Fut"), ("SOLUSD_PERP", "Fut"),
    ("XRPUSD_PERP", "Fut"), ("BTC_USD", "Spt"), ("ETH_USD", "Spt"),
    ("SOL_USD", "Spt"), ("XRP_USD", "Spt")]

  function BinanceEntry(p: (string, string)): Entry {
    Entry(Label(p.0, p.1), BinanceKey(p.0, p.1))
  }

  function BitmexEntry(inst: string): Entry {
    Entry(Label(inst, "Fut"), BitmexKey(inst))
  }

  function CryptoEntry(p: (string, string)): Entry {
    Entry(Label(p.0, p.1), CryptoKey(p.0, p.1))
  }

  function BinanceEntries(): seq<Entry> {
    seq(|BinancePairs|, i requires 0 <= i < |BinancePairs| => BinanceEntry(BinancePairs[i]))
  }

  function BitmexEntries(): seq<Entry> {
    seq(|BitmexInsts|, i requires 0 <= i < |BitmexInsts| => BitmexEntry(BitmexInsts[i]))
  }

  function CryptoEntries(): seq<Entry> {
    seq(|CryptoPairs|, i requires 0 <= i < |CryptoPairs| => CryptoEntry(CryptoPairs[i]))
  }

  /** The instruments of a list of (instrument, segment) pairs. */
  function Insts(ps: seq<(string, string)>): seq<string> {
    seq(|ps|, i requires 0 <= i < |ps| => ps[i].0)
  }

  lemma BinanceFacts()
    ensures Distinct(Insts(BinancePairs))
    ensures forall i :: 0 <= i < |BinancePairs| ==> BinancePairs[i].1 == "FutT"
  {
  }

  lemma CryptoFacts()
    ensures Distinct(Insts(CryptoPairs))
    ensures forall i :: 0 <= i < |CryptoPairs| ==> CryptoPairs[i].1 in {"Fut", "Spt"}
    ensures forall i, j :: 0 <= i < |BitmexInsts| && 0 <= j < |CryptoPairs| ==>
              BitmexInsts[i] != CryptoPairs[j].0
  {
  }

  lemma BitmexFacts()
    ensures Distinct(BitmexInsts)
  {
  }

  /** The (instrument, segment) pair behind every label, in registry order. */
  function LabelPairs(): seq<(string, string)> {
    BinancePairs
    + seq(|BitmexInsts|, i requires 0 <= i < |BitmexInsts| => (BitmexInsts[i], "Fut"))
    + CryptoPairs
  }

  /** The registry as bot.py leaves it, if neither update overwrites an entry. */
  function Concatenated(): seq<Entry> {
    BinanceEntries() + BitmexEntries() + CryptoEntries()
  }

  /**
   * Every registry entry follows its comprehension's template: the first 14
   * are Binance USDT-margined perpetuals, the next 3 BitMEX perpetuals, the
   * last 8 Crypto.com instruments.
   */
  lemma RegistryTemplates()
    ensures |Concatenated()| == 25
    ensures forall i :: 0 <= i < 14 ==>
              Concatenated()[i] == Entry(Label(BinancePairs[i].0, "FutT"), BinanceKey(BinancePairs[i].0, "FutT"))
    ensures forall i :: 14 <= i < 17 ==>
              Concatenated()[i] == Entry(Label(BitmexInsts[i - 14], "Fut"), BitmexKey(BitmexInsts[i - 14]))
    ensures forall i :: 17 <= i < 25 ==>
              Concatenated()[i] == Entry(Label(CryptoPairs[i - 17].0, CryptoPairs[i - 17].1),
                                         CryptoKey(CryptoPairs[i - 17].0, CryptoPairs[i - 17].1))
  {
    var d, b, m, c := Concatenated(), BinanceEntries(), BitmexEntries(), CryptoEntries();
    assert d == b + m + c;
    BinanceFacts();
    forall i | 0 <= i < 14
      ensures d[i] == Entry(Label(BinancePairs[i].0, "FutT"), BinanceKey(BinancePairs[i].0, "FutT"))
    {
      assert d[i] == b[i];
    }
    forall i | 14 <= i < 17
      ensures d[i] == Entry(Label(BitmexInsts[i - 14], "Fut"), BitmexKey(BitmexInsts[i - 14]))
    {
      assert d[i] == m[i - 14];
    }
    forall i | 17 <= i < 25
      ensures d[i] == CryptoEntry(CryptoPairs[i - 17])
    {
      assert d[i] == c[i - 17];
    }
  }

  const Segments: set<string> := {"FutT", "Fut", "Spt"}

  /** Two labels with segments of equal length are equal only for equal parts. */
  lemma LabelInjective(a: string, s: string, b: string, t: string)
    requires Label(a, s) == Label(b, t)
    requires |s| == |t|
    ensures a == b && s == t
  {
    var l := Label(a, s);
    assert l == a + (" (" + s + ")");
    assert l == b + (" (" + t + ")");
    assert |a| == |b|;
    assert l[..|a|] == a;
    assert l[..|b|] == b;
    assert l[|a| + 2..|a| + 2 + |s|] == s;
    assert l[|b| + 2..|b| + 2 + |t|] == t;
  }

  /** Equal labels end in the same segment character. */
  lemma LabelLastChar(a: string, s: string, b: string, t: string)
    requires Label(a, s) == Label(b, t)
    requires |s| > 0 && |t| > 0
    ensures s[|s| - 1] == t[|t| - 1]
  {
    var l := Label(a, s);
    assert l[|l| - 2] == s[|s| - 1];
    assert Label(b, t)[|l| - 2] == t[|t| - 1];
  }

  /** Distinct (instrument, segment) pairs of the registry give distinct labels. */
  lemma LabelsDiffer(p: (string, string), q: (string, string))
    requires p != q
    requires p.1 in Segments && q.1 in Segments
    ensures Label(p.0, p.1) != Label(q.0, q.1)
  {
    if Label(p.0, p.1) == Label(q.0, q.1) {
      if |p.1| == |q.1| {
        LabelInjective(p.0, p.1, q.0, q.1);
      } else {
        LabelLastChar(p.0, p.1, q.0, q.1);
        assert false;
      }
    }
  }

  lemma LabelPairsDistinct()
    ensures |LabelPairs()| == 25
    ensures Distinct(LabelPairs())
    ensures forall i :: 0 <= i < 25 ==> LabelPairs()[i].1 in Segments
  {
    BinanceFacts();
    BitmexFacts();
    CryptoFacts();
    var ps := LabelPairs();
    var nb, nm := |BinancePairs|, |BinancePairs| + |BitmexInsts|;
    forall i, j | 0 <= i < j < |ps| ensures ps[i] != ps[j] {
      if j < nb {
        assert ps[i].0 == Insts(BinancePairs)[i] && ps[j].0 == Insts(BinancePairs)[j];
      } else if i < nb {
        assert ps[i].1 == "FutT" != ps[j].1;
      } else if j < nm {
        assert ps[i].0 == BitmexInsts[i - nb] && ps[j].0 == BitmexInsts[j - nb];
      } else if i < nm {
        assert ps[i].0 == BitmexInsts[i - nb] && ps[j].0 == CryptoPairs[j - nm].0;
      } else {
        assert ps[i].0 == Insts(CryptoPairs)[i - nm] && ps[j].0 == Insts(CryptoPairs)[j - nm];
      }
    }
  }

  /**
   * All 25 labels of the registry are distinct, so the comprehensions and the
   * two `update` calls never overwrite an earlier entry.
   */
  lemma ConcatenatedUnique()
    ensures |Concatenated()| == 25
    ensures UniqueLabels(Concatenated())
  {
    LabelPairsDistinct();
    var d, ps := Concatenated(), LabelPairs();
    assert forall i :: 0 <= i < 25 ==> d[i].name == Label(ps[i].0, ps[i].1);
    forall i, j | 0 <= i < j < |d| ensures d[i].name != d[j].name {
      LabelsDiffer(ps[i], ps[j]);
    }
  }

  /** A comprehension followed by two updates that bring no known label. */
  lemma BuildAppends(b: seq<Entry>, m: seq<Entry>, c: seq<Entry>)
    requires UniqueLabels(b + m + c)
    ensures Updated(Updated(Updated([], b), m), c) == b + m + c
  {
    assert UniqueLabels([] + b) && UniqueLabels(b + m) by {
      assert [] + b == (b + m + c)[..|b|];
      assert b + m == (b + m + c)[..|b| + |m|];
    }
    UpdatedFresh([], b);
    assert [] + b == b;
    UpdatedFresh(b, m);
    UpdatedFresh(b + m, c);
  }

  /**
   * bot.py lines 46-114: the Binance comprehension, then the BitMEX and the
   * Crypto comprehensions merged in with `update`. The result is the three
   * template lists one after the other: 25 entries, none overwritten.
   */
  method BuildInstruments() returns (t: InstrumentTable)
    ensures fresh(t) && t.Valid()
    ensures t.entries == Concatenated()
    ensures |t.entries| == 25
  {
    t := new InstrumentTable(BinanceEntries());
    t.Update(BitmexEntries());
    t.Update(CryptoEntries());
    ConcatenatedUnique();
    BuildAppends(BinanceEntries(), BitmexEntries(), CryptoEntries());
  }
}
