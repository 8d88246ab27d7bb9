/**
  The handling-priority matrix of `IrigasiBackend.get_prioritas_matematis`
  in backend_iksi.py: the newest inspection per asset name is scored as
  risk times a logarithmic impact factor, classed into four priority bands,
  and the rows are ordered by score, highest first.
 */
module Priority {
  import Dedup
  import opened Seqs

  /** One joined row of `master_aset` and `inspeksi_aset`, as the query
      selects it (the estimated cost is carried along untouched). */
  datatype Row = Row(
    name: string, kind: string,
    civil: real, me: real,
    civilFunction: real, meFunction: real,
    affectedArea: real, cost: real)

  /** The four priority bands of `label_prioritas`, most urgent first. */
  datatype Class = Darurat | Mendesak | PerluPerhatian | Rutin

  /** A result row: the inspection with `Skor_Prioritas` and
      `Kelas_Prioritas` added. */
  datatype Ranked = Ranked(row: Row, score: real, cls: Class)

  function Min(a: real, b: real): (m: real)
    ensures m <= a && m <= b && (m == a || m == b)
  {
    if a <= b then a else b
  }

  /** `Nilai_Resiko`: damage weighs 0.4 and loss of function 0.6, each
      measured from the worse of the civil and mechanical-electrical parts. */
  function RiskValue(r: Row): real {
    (100.0 - Min(r.civil, r.me)) * 0.4 + (100.0 - Min(r.civilFunction, r.meFunction)) * 0.6
  }

  /** `Faktor_Dampak`: log10(A + 1) for a positive affected area, else 0.1.
      The logarithm is a parameter: the model does not compute it. */
  function ImpactFactor(area: real, log10: real -> real): real {
    if area > 0.0 then log10(area + 1.0) else 0.1
  }

  /** `hitung_skor`. */
  function Score(r: Row, log10: real -> real): real {
    RiskValue(r) * ImpactFactor(r.affectedArea, log10)
  }

  /** `label_prioritas`: strict thresholds 150, 80 and 40. */
  function Classify(score: real): (c: Class)
    ensures c == Darurat <==> score > 150.0
    ensures c == Mendesak <==> 80.0 < score <= 150.0
    ensures c == PerluPerhatian <==> 40.0 < score <= 80.0
    ensures c == Rutin <==> score <= 40.0
  {
    if score > 150.0 then Darurat
    else if score > 80.0 then Mendesak
    else if score > 40.0 then PerluPerhatian
    else Rutin
  }

  /** The label text the source writes into `Kelas_Prioritas`. */
  function Label(c: Class): string {
    match c
    case Darurat => "1. DARURAT 🔴"
    case Mendesak => "2. MENDESAK 🟠"
    case PerluPerhatian => "3. PERLU PERHATIAN 🟡"
    case Rutin => "4. RUTIN 🟢"
  }

  /** The band's number, 1 for the most urgent. */
  function Rank(c: Class): nat {
    match c
    case Darurat => 1
    case Mendesak => 2
    case PerluPerhatian => 3
    case Rutin => 4
  }

  function NameKey(r: Row): string {
    r.name
  }

  function Rate(r: Row, log10: real -> real): Ranked {
    var s := Score(r, log10);
    Ranked(r, s, Classify(s))
  }

  function RateAll(rows: seq<Row>, log10: real -> real): (rs: seq<Ranked>)
    ensures |rs| == |rows|
    ensures forall k :: 0 <= k < |rows| ==> rs[k] == Rate(rows[k], log10)
  {
    seq(|rows|, k requires 0 <= k < |rows| => Rate(rows[k], log10))
  }

  predicate SortedDesc(s: seq<Ranked>) {
    forall i, j :: 0 <= i < j < |s| ==> s[i].score >= s[j].score
  }

  /** Puts `x` in front of the first row whose score it reaches. */
  function Insert(x: Ranked, s: seq<Ranked>): (r: seq<Ranked>)
    ensures |r| == |s| + 1
    decreases |s|
  {
    if |s| == 0 then [x]
    else if x.score >= s[0].score then [x] + s
    else [s[0]] + Insert(x, s[1..])
  }

  /** `sort_values(by='Skor_Prioritas', ascending=False)`. Only the order of
      scores is promised: pandas' default sort is not stable, so rows with
      equal scores may come out in any order. */
  function SortDesc(s: seq<Ranked>): (r: seq<Ranked>)
    ensures |r| == |s|
    decreases |s|
  {
    if |s| == 0 then [] else Insert(s[0], SortDesc(s[1..]))
  }

  /** `get_prioritas_matematis`, given the joined rows newest first. */
  function GetPrioritasMatematis(rows: seq<Row>, log10: real -> real): seq<Ranked> {
    SortDesc(RateAll(Dedup.DropDuplicates(rows, NameKey), log10))
  }

  // ----- properties -----

  /** With conditions and function values on the 0..100 scale the risk is
      on that scale too. */
  lemma RiskBounds(r: Row)
    requires 0.0 <= r.civil <= 100.0 && 0.0 <= r.me <= 100.0
    requires 0.0 <= r.civilFunction <= 100.0 && 0.0 <= r.meFunction <= 100.0
    ensures 0.0 <= RiskValue(r) <= 100.0
  {
  }

  /** Worsening any one condition or function value never lowers the risk. */
  lemma RiskMonotone(r: Row, s: Row)
    requires s.civil <= r.civil && s.me <= r.me
    requires s.civilFunction <= r.civilFunction && s.meFunction <= r.meFunction
    ensures RiskValue(s) >= RiskValue(r)
  {
  }

  /** Without a positive affected area the score is a tenth of the risk,
      whatever the logarithm. */
  lemma NoAreaTenthOfRisk(r: Row, log10: real -> real)
    requires r.affectedArea <= 0.0
    ensures Score(r, log10) == RiskValue(r) / 10.0
  {
  }

  /** A higher score never lands in a less urgent band. */
  lemma ClassifyMonotone(a: real, b: real)
    requires a <= b
    ensures Rank(Classify(b)) <= Rank(Classify(a))
  {
  }

  /** The bands and labels are in one-to-one correspondence, and each label
      starts with its band's number. */
  lemma LabelsDistinct(c: Class, d: Class)
    ensures Label(c) == Label(d) <==> c == d
    ensures Label(c)[0] == "1234"[Rank(c) - 1]
  {
  }

  /** Inserting adds exactly `x` to the rows. */
  lemma {:induction false} InsertMultiset(x: Ranked, s: seq<Ranked>)
    ensures multiset(Insert(x, s)) == multiset(s) + multiset{x}
    decreases |s|
  {
    if |s| > 0 && x.score < s[0].score {
      InsertMultiset(x, s[1..]);
      assert s == [s[0]] + s[1..];
    }
  }

  /** Inserting into a sorted sequence keeps it sorted. */
  lemma {:induction false} InsertSorted(x: Ranked, s: seq<Ranked>)
    requires SortedDesc(s)
    ensures SortedDesc(Insert(x, s))
    decreases |s|
  {
    if |s| > 0 && x.score < s[0].score {
      InsertSorted(x, s[1..]);
      InsertMultiset(x, s[1..]);
      var r := Insert(x, s);
      forall j | 0 < j < |r| ensures r[0].score >= r[j].score {
        assert r[j] in multiset(Insert(x, s[1..]));
      }
    }
  }

  /** The sort returns a permutation of its input, highest score first. */
  lemma {:induction false} SortDescSpec(s: seq<Ranked>)
    ensures SortedDesc(SortDesc(s))
    ensures multiset(SortDesc(s)) == multiset(s)
    decreases |s|
  {
    if |s| > 0 {
      SortDescSpec(s[1..]);
      InsertSorted(s[0], SortDesc(s[1..]));
      InsertMultiset(s[0], SortDesc(s[1..]));
      MultisetHeadTail(s);
    }
  }

  /** No two rows share an asset name. */
  predicate DistinctNames(s: seq<Ranked>) {
    forall i, j :: 0 <= i < j < |s| ==> s[i].row.name != s[j].row.name
  }

  lemma {:induction false} InsertDistinct(x: Ranked, s: seq<Ranked>)
    requires DistinctNames(s)
    requires forall k :: 0 <= k < |s| ==> s[k].row.name != x.row.name
    ensures DistinctNames(Insert(x, s))
    decreases |s|
  {
    if |s| > 0 && x.score < s[0].score {
      InsertDistinct(x, s[1..]);
      InsertMultiset(x, s[1..]);
      var r := Insert(x, s);
      forall j | 0 < j < |r| ensures r[0].row.name != r[j].row.name {
        var y := r[j];
        assert y in multiset(Insert(x, s[1..]));
        if y != x {
          assert y in s[1..];
        }
      }
    }
  }

  /** Sorting keeps names distinct. */
  lemma {:induction false} SortDistinct(s: seq<Ranked>)
    requires DistinctNames(s)
    ensures DistinctNames(SortDesc(s))
    decreases |s|
  {
    if |s| > 0 {
      var t := SortDesc(s[1..]);
      SortDistinct(s[1..]);
      SortDescSpec(s[1..]);
      forall k | 0 <= k < |t| ensures t[k].row.name != s[0].row.name {
        assert t[k] in multiset(s[1..]);
        var m :| 0 <= m < |s[1..]| && s[1..][m] == t[k];
        assert s[m + 1] == t[k];
      }
      InsertDistinct(s[0], t);
    }
  }

  /** The result holds, highest score first, exactly one rated row per asset
      name: the first of that name in the input, which the query's order
      makes the newest inspection. Every row carries the band of its score. */
  lemma GetPrioritasSpec(rows: seq<Row>, log10: real -> real)
    ensures var p := GetPrioritasMatematis(rows, log10);
      && SortedDesc(p)
      && multiset(p) == multiset(RateAll(Dedup.DropDuplicates(rows, NameKey), log10))
      && DistinctNames(p)
      && (forall x :: x in p ==> x.cls == Classify(x.score) && x.score == Score(x.row, log10))
      && (forall x :: x in p ==> Dedup.FirstOccurrence(rows, NameKey, x.row))
  {
    var kept := Dedup.DropDuplicates(rows, NameKey);
    var rated := RateAll(kept, log10);
    var p := GetPrioritasMatematis(rows, log10);
    Dedup.DropDuplicatesSpec(rows, NameKey);
    SortDescSpec(rated);
    SortDistinct(rated);
    forall x | x in p ensures x.cls == Classify(x.score) && x.score == Score(x.row, log10) && Dedup.FirstOccurrence(rows, NameKey, x.row) {
      assert x in multiset(rated);
      var k :| 0 <= k < |rated| && rated[k] == x;
      assert kept[k] in kept;
    }
  }

  /** The result is empty exactly when there are no inspections. */
  lemma EmptyIffNoRows(rows: seq<Row>, log10: real -> real)
    ensures |GetPrioritasMatematis(rows, log10)| == 0 <==> |rows| == 0
  {
    if |rows| > 0 {
      Dedup.DropDuplicatesNonEmpty(rows, NameKey);
    }
  }
}
