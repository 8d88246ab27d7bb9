/**
  The pure scoring rules of `IrigasiBackend.hitung_skor_iksi_audit` in
  backend_iksi.py, over exact reals: the six component scores of the
  irrigation performance index (IKSI) and their weighted total. The queries
  become sequences of rows in the order the SQL returns them.
 */
module Iksi {
  import opened Strings
  import Dedup

  // ----- averages -----

  function Sum(xs: seq<real>): real
    decreases |xs|
  {
    if |xs| == 0 then 0.0 else Sum(xs[..|xs| - 1]) + xs[|xs| - 1]
  }

  /** `Series.mean()`, with 0 for an empty table (the `if not df.empty`
      guards of the source). */
  function Mean(xs: seq<real>): real {
    if |xs| == 0 then 0.0 else Sum(xs) / (|xs| as real)
  }

  lemma {:induction false} SumBounds(xs: seq<real>, lo: real, hi: real)
    requires forall k :: 0 <= k < |xs| ==> lo <= xs[k] <= hi
    ensures lo * (|xs| as real) <= Sum(xs) <= hi * (|xs| as real)
    decreases |xs|
  {
    if |xs| > 0 {
      SumBounds(xs[..|xs| - 1], lo, hi);
    }
  }

  /** A mean lies between the smallest and the largest value. */
  lemma MeanBounds(xs: seq<real>, lo: real, hi: real)
    requires |xs| > 0
    requires forall k :: 0 <= k < |xs| ==> lo <= xs[k] <= hi
    ensures lo <= Mean(xs) <= hi
  {
    SumBounds(xs, lo, hi);
    var n := |xs| as real;
    DivBounds(Sum(xs), n, lo, hi);
  }

  /** `lo * d <= x <= hi * d` with `d > 0` puts `x / d` between `lo` and `hi`. */
  lemma DivBounds(x: real, d: real, lo: real, hi: real)
    requires d > 0.0 && lo * d <= x <= hi * d
    ensures lo <= x / d <= hi
  {
    var q := x / d;
    assert q * d == x;
    PositiveFactor(q - lo, d);
    PositiveFactor(hi - q, d);
  }

  lemma PositiveFactor(a: real, d: real)
    requires d > 0.0 && a * d >= 0.0
    ensures a >= 0.0
  {
  }

  // ----- 1. physical infrastructure (45%) -----

  /** One row of the asset/inspection join. */
  datatype Inspection = Inspection(assetId: int, name: string, kind: string, area: real, civil: real, me: real)

  /** `get_bobot_jenis`: 1.5 for headworks, pumps and main canals, 1.2 for
      primary canals, 1.0 for everything else; the first rule that matches
      wins. */
  function AssetWeight(kind: string): (w: real)
    ensures 1.0 <= w <= 1.5
  {
    var j := Lower(kind);
    if Contains(j, "bendung") || Contains(j, "pompa") || Contains(j, "utama") then 1.5
    else if Contains(j, "primer") || Contains(j, "induk") then 1.2
    else 1.0
  }

  /** Lower-casing twice is lower-casing once. */
  lemma LowerIdempotent(s: string)
    ensures Lower(Lower(s)) == Lower(s)
  {
  }

  /** The asset weight does not depend on letter case. */
  lemma AssetWeightIgnoresCase(kind: string)
    ensures AssetWeight(Lower(kind)) == AssetWeight(kind)
  {
    LowerIdempotent(kind);
  }

  /** `(kondisi_sipil + kondisi_me) / 2`. */
  function Condition(r: Inspection): real {
    (r.civil + r.me) / 2.0
  }

  /** `luas_layanan_desain * bobot_jenis`. */
  function Weight(r: Inspection): real {
    r.area * AssetWeight(r.kind)
  }

  function Weights(rs: seq<Inspection>): (ws: seq<real>)
    ensures |ws| == |rs|
    ensures forall k :: 0 <= k < |rs| ==> ws[k] == Weight(rs[k])
  {
    seq(|rs|, k requires 0 <= k < |rs| => Weight(rs[k]))
  }

  /** `(a * b).sum()` for two aligned columns. */
  function Dot(xs: seq<real>, ys: seq<real>): real
    requires |xs| == |ys|
    decreases |xs|
  {
    if |xs| == 0 then 0.0
    else Dot(xs[..|xs| - 1], ys[..|ys| - 1]) + xs[|xs| - 1] * ys[|ys| - 1]
  }

  function Conditions(rs: seq<Inspection>): (cs: seq<real>)
    ensures |cs| == |rs|
    ensures forall k :: 0 <= k < |rs| ==> cs[k] == Condition(rs[k])
  {
    seq(|rs|, k requires 0 <= k < |rs| => Condition(rs[k]))
  }

  /** `drop_duplicates(subset=['id'])` on rows sorted newest first: the newest
      inspection of each asset. */
  function Newest(rows: seq<Inspection>): seq<Inspection> {
    Dedup.DropDuplicates(rows, AssetKey)
  }

  function AssetKey(r: Inspection): int {
    r.assetId
  }

  /** The physical score: the area-and-type weighted mean condition of the
      newest inspections, the plain mean when the weights sum to 0 or less,
      and 0 without inspections. */
  function PhysicalScore(rows: seq<Inspection>): real {
    if |rows| == 0 then 0.0 else WeightedMean(Newest(rows))
  }

  /** `pembilang / penyebut` when `penyebut > 0`, else the plain mean. */
  function WeightedMean(rs: seq<Inspection>): real {
    var den := Sum(Weights(rs));
    if den > 0.0 then Dot(Conditions(rs), Weights(rs)) / den
    else Mean(Conditions(rs))
  }

  /** A weighted sum with non-negative weights lies between the smallest
      and largest value times the total weight. */
  lemma {:induction false} DotBounds(xs: seq<real>, ws: seq<real>, lo: real, hi: real)
    requires |xs| == |ws|
    requires forall k :: 0 <= k < |xs| ==> ws[k] >= 0.0 && lo <= xs[k] <= hi
    ensures Sum(ws) >= 0.0
    ensures lo * Sum(ws) <= Dot(xs, ws) <= hi * Sum(ws)
    decreases |xs|
  {
    if |xs| > 0 {
      var n := |xs| - 1;
      DotBounds(xs[..n], ws[..n], lo, hi);
      var sw, d, x, w := Sum(ws[..n]), Dot(xs[..n], ws[..n]), xs[n], ws[n];
      ProductBounds(x, w, lo, hi);
      assert lo * (sw + w) == lo * sw + lo * w;
      assert hi * (sw + w) == hi * sw + hi * w;
    }
  }

  lemma WeightNonNegative(r: Inspection)
    requires r.area >= 0.0
    ensures Weight(r) >= 0.0
  {
    var w := AssetWeight(r.kind);
    assert w >= 1.0;
  }

  lemma ProductBounds(c: real, w: real, lo: real, hi: real)
    requires w >= 0.0 && lo <= c <= hi
    ensures lo * w <= c * w <= hi * w
  {
  }

  /** The newest inspections are among the inspections, and there is one
      whenever there is any inspection. */
  lemma NewestWithin(rows: seq<Inspection>, lo: real, hi: real)
    requires |rows| > 0
    requires forall k :: 0 <= k < |rows| ==> rows[k].area >= 0.0 && lo <= Condition(rows[k]) <= hi
    ensures |Newest(rows)| > 0
    ensures forall k :: 0 <= k < |Newest(rows)| ==>
      Newest(rows)[k].area >= 0.0 && lo <= Condition(Newest(rows)[k]) <= hi
  {
    var rs := Newest(rows);
    Dedup.DropDuplicatesSubset(rows, AssetKey);
    Dedup.DropDuplicatesNonEmpty(rows, AssetKey);
    forall k | 0 <= k < |rs| ensures rs[k].area >= 0.0 && lo <= Condition(rs[k]) <= hi {
      assert rs[k] in rows;
    }
  }

  /** With non-negative areas, the physical score of a non-empty inspection
      list lies between the lowest and the highest asset condition. */
  lemma PhysicalScoreBounds(rows: seq<Inspection>, lo: real, hi: real)
    requires |rows| > 0
    requires forall k :: 0 <= k < |rows| ==> rows[k].area >= 0.0 && lo <= Condition(rows[k]) <= hi
    ensures lo <= PhysicalScore(rows) <= hi
  {
    NewestWithin(rows, lo, hi);
    WeightedMeanBounds(Newest(rows), lo, hi);
  }

  /** The weighted mean (or plain mean) of rows with non-negative areas lies
      between their lowest and highest condition. */
  lemma WeightedMeanBounds(rs: seq<Inspection>, lo: real, hi: real)
    requires |rs| > 0
    requires forall k :: 0 <= k < |rs| ==> rs[k].area >= 0.0 && lo <= Condition(rs[k]) <= hi
    ensures lo <= WeightedMean(rs) <= hi
  {
    var ws := Weights(rs);
    forall k | 0 <= k < |rs| ensures ws[k] >= 0.0 {
      WeightNonNegative(rs[k]);
    }
    DotBounds(Conditions(rs), ws, lo, hi);
    if Sum(ws) > 0.0 {
      DivBounds(Dot(Conditions(rs), ws), Sum(ws), lo, hi);
    } else {
      MeanBounds(Conditions(rs), lo, hi);
    }
  }

  // ----- 2. planting productivity (15%) -----

  /** One row of `data_tanam`. */
  datatype Planting = Planting(faktorK: real, planned: real, realised: real)

  function WaterScore(fk: real): real {
    if fk >= 1.0 then 100.0 else if fk >= 0.7 then 80.0 else 60.0
  }

  /** Realised over planned area, 0 when nothing was planned. */
  function AreaRatio(p: Planting): real {
    if p.planned > 0.0 then p.realised / p.planned else 0.0
  }

  function AreaScore(p: Planting): real {
    if AreaRatio(p) >= 0.9 then 100.0 else 80.0
  }

  /** `hitung_mt`: 60% water availability, 40% planted area. */
  function PlantingRowScore(p: Planting): (s: real)
    ensures 68.0 <= s <= 100.0
  {
    WaterScore(p.faktorK) * 0.6 + AreaScore(p) * 0.4
  }

  /** A row scores the full 100 exactly when the water factor reaches 1 and
      at least 90% of the planned area was planted, and the floor of 68
      exactly when the water factor is below 0.7 and less than 90% was
      planted; a season with no planned area never reaches 100. */
  lemma PlantingRowExtremes(p: Planting)
    ensures PlantingRowScore(p) == 100.0 <==> p.faktorK >= 1.0 && AreaRatio(p) >= 0.9
    ensures PlantingRowScore(p) == 68.0 <==> p.faktorK < 0.7 && AreaRatio(p) < 0.9
    ensures p.planned <= 0.0 ==> PlantingRowScore(p) < 100.0
  {
  }

  /** More water never lowers a row's score. */
  lemma PlantingRowMonotone(p: Planting, fk: real)
    requires p.faktorK <= fk
    ensures PlantingRowScore(p) <= PlantingRowScore(p.(faktorK := fk))
  {
  }

  function PlantingRowScores(rows: seq<Planting>): (xs: seq<real>)
    ensures |xs| == |rows|
    ensures forall i :: 0 <= i < |rows| ==> xs[i] == PlantingRowScore(rows[i])
  {
    seq(|rows|, i requires 0 <= i < |rows| => PlantingRowScore(rows[i]))
  }

  /** The planting score: the mean row score, 0 without rows. */
  function PlantingScore(rows: seq<Planting>): real {
    Mean(PlantingRowScores(rows))
  }

  // ----- 3./4. facilities and personnel (10% and 15%) -----

  /** One row of `data_sdm_sarana`. */
  datatype Facility = Facility(jenis: string, name: string, kondisi: string)

  /** SQL `x LIKE '%pat%'` (SQLite compares ASCII letters without case). */
  predicate Like(x: string, pat: string) {
    Contains(Lower(x), Lower(pat))
  }

  /** The facility mapping, with `fillna(60)` for any other condition. */
  function FacilityValue(kondisi: string): (v: real)
    ensures 40.0 <= v <= 100.0
  {
    if kondisi == "Baik" then 100.0
    else if kondisi == "Sedang" then 80.0
    else if kondisi == "Rusak Ringan" then 60.0
    else if kondisi == "Rusak Berat" then 40.0
    else 60.0
  }

  /** `WHERE jenis NOT LIKE '%Personil%'`. */
  function FacilityRows(rows: seq<Facility>): (r: seq<Facility>)
    ensures forall k :: 0 <= k < |r| ==> !Like(r[k].jenis, "Personil")
    decreases |rows|
  {
    if |rows| == 0 then []
    else
      var rest := FacilityRows(rows[..|rows| - 1]);
      if !Like(rows[|rows| - 1].jenis, "Personil") then rest + [rows[|rows| - 1]] else rest
  }

  function FacilityValues(fs: seq<Facility>): (xs: seq<real>)
    ensures |xs| == |fs|
    ensures forall i :: 0 <= i < |fs| ==> xs[i] == FacilityValue(fs[i].kondisi)
  {
    seq(|fs|, i requires 0 <= i < |fs| => FacilityValue(fs[i].kondisi))
  }

  function SaranaScore(rows: seq<Facility>): real {
    Mean(FacilityValues(FacilityRows(rows)))
  }

  /** `WHERE jenis LIKE '%Personil%' OR jenis LIKE '%Juru%'`. */
  predicate IsStaff(f: Facility) {
    Like(f.jenis, "Personil") || Like(f.jenis, "Juru")
  }

  /** 100 when any personnel row exists, else 0. */
  function SdmScore(rows: seq<Facility>): real {
    if exists k :: 0 <= k < |rows| && IsStaff(rows[k]) then 100.0 else 0.0
  }

  lemma {:induction false} FacilityRowsMembers(rows: seq<Facility>)
    ensures forall f :: f in FacilityRows(rows) <==> f in rows && !Like(f.jenis, "Personil")
    decreases |rows|
  {
    if |rows| > 0 {
      FacilityRowsMembers(rows[..|rows| - 1]);
      assert rows == rows[..|rows| - 1] + [rows[|rows| - 1]];
    }
  }

  /** A "Juru" row that is not "Personil" is counted twice: as a facility and
      as personnel. */
  lemma JuruCountsTwice(rows: seq<Facility>, k: nat)
    requires k < |rows| && Like(rows[k].jenis, "Juru") && !Like(rows[k].jenis, "Personil")
    ensures rows[k] in FacilityRows(rows)
    ensures SdmScore(rows) == 100.0
  {
    FacilityRowsMembers(rows);
  }

  /** The facility score is 0 without facility rows and between 40 and 100
      otherwise. */
  lemma SaranaScoreBounds(rows: seq<Facility>)
    ensures |FacilityRows(rows)| == 0 ==> SaranaScore(rows) == 0.0
    ensures |FacilityRows(rows)| > 0 ==> 40.0 <= SaranaScore(rows) <= 100.0
  {
    var fs := FacilityRows(rows);
    if |fs| > 0 {
      MeanBounds(FacilityValues(fs), 40.0, 100.0);
    }
  }

  // ----- 5. documentation (5%) -----

  /** One row of `data_dokumentasi`: `ada` is 1 or 0. */
  datatype Document = Document(kind: string, present: int)

  function PresentSum(rows: seq<Document>): int
    decreases |rows|
  {
    if |rows| == 0 then 0 else PresentSum(rows[..|rows| - 1]) + rows[|rows| - 1].present
  }

  /** `ada.sum() / len * 100`, 0 for an empty table. */
  function DokScore(rows: seq<Document>): real {
    if |rows| == 0 then 0.0 else (PresentSum(rows) as real) / (|rows| as real) * 100.0
  }

  lemma {:induction false} PresentSumBounds(rows: seq<Document>)
    requires forall k :: 0 <= k < |rows| ==> 0 <= rows[k].present <= 1
    ensures 0 <= PresentSum(rows) <= |rows|
    decreases |rows|
  {
    if |rows| > 0 {
      PresentSumBounds(rows[..|rows| - 1]);
    }
  }

  /** With 0/1 flags the documentation score is the percentage of documents
      present, between 0 and 100. */
  lemma DokScoreBounds(rows: seq<Document>)
    requires forall k :: 0 <= k < |rows| ==> 0 <= rows[k].present <= 1
    ensures 0.0 <= DokScore(rows) <= 100.0
  {
    PresentSumBounds(rows);
    if |rows| > 0 {
      DivBounds(PresentSum(rows) as real, |rows| as real, 0.0, 1.0);
    }
  }

  // ----- 6. water user associations (10%) -----

  /** `nilai_p3a`: 100 for an active association (the text holds "aktif" and
      not "tidak"), 75 for "sedang", 50 otherwise; case is ignored. */
  function P3aValue(keaktifan: string): (v: real)
    ensures v == 100.0 || v == 75.0 || v == 50.0
  {
    var v := Lower(keaktifan);
    if Contains(v, "aktif") && !Contains(v, "tidak") then 100.0
    else if Contains(v, "sedang") then 75.0
    else 50.0
  }

  function P3aValues(rows: seq<string>): (xs: seq<real>)
    ensures |xs| == |rows|
    ensures forall i :: 0 <= i < |rows| ==> xs[i] == P3aValue(rows[i])
  {
    seq(|rows|, i requires 0 <= i < |rows| => P3aValue(rows[i]))
  }

  function P3aScore(rows: seq<string>): real {
    Mean(P3aValues(rows))
  }

  /** A status mentioning "tidak" (in any case) is never scored as active. */
  lemma P3aNegationWins(keaktifan: string)
    requires Contains(Lower(keaktifan), "tidak")
    ensures P3aValue(keaktifan) <= 75.0
  {
  }

  /** Lower-casing distributes over concatenation. */
  lemma LowerConcat(a: string, b: string)
    ensures Lower(a + b) == Lower(a) + Lower(b)
  {
  }

  /** "aktif" is looked for before "sedang": any status holding "aktif" and no
      "tidak" scores 100, so "Sedang Aktif" counts as active. */
  lemma P3aActiveFirst(a: string, b: string)
    requires !Contains(Lower(a + "aktif" + b), "tidak")
    ensures P3aValue(a + "aktif" + b) == 100.0
  {
    var low := Lower(a + "aktif" + b);
    LowerConcat(a + "aktif", b);
    LowerConcat(a, "aktif");
    assert Lower("aktif") == "aktif";
    assert low == Lower(a) + ("aktif" + Lower(b));
    assert StartsWith("aktif" + Lower(b), "aktif");
    ContainsOfPrefix("aktif" + Lower(b), "aktif");
    ContainsAppend(Lower(a), "aktif" + Lower(b), "aktif");
  }

  lemma P3aScoreBounds(rows: seq<string>)
    ensures |rows| == 0 ==> P3aScore(rows) == 0.0
    ensures |rows| > 0 ==> 50.0 <= P3aScore(rows) <= 100.0
  {
    if |rows| > 0 {
      MeanBounds(P3aValues(rows), 50.0, 100.0);
    }
  }

  // ----- total -----

  datatype Components = Components(fisik: real, tanam: real, sarana: real, sdm: real, dok: real, p3a: real)

  predicate InPercentRange(c: Components) {
    && 0.0 <= c.fisik <= 100.0 && 0.0 <= c.tanam <= 100.0 && 0.0 <= c.sarana <= 100.0
    && 0.0 <= c.sdm <= 100.0 && 0.0 <= c.dok <= 100.0 && 0.0 <= c.p3a <= 100.0
  }

  /** The IKSI total: 45% physical, 15% planting, 10% facilities, 15%
      personnel, 5% documentation, 10% associations. */
  function TotalIksi(c: Components): real {
    c.fisik * 0.45 + c.tanam * 0.15 + c.sarana * 0.10 + c.sdm * 0.15 + c.dok * 0.05 + c.p3a * 0.10
  }

  /** The weights sum to one: equal components give that same total, and
      components in [0, 100] give a total in [0, 100]. */
  lemma TotalIksiBounds(c: Components)
    ensures (c.fisik == c.tanam == c.sarana == c.sdm == c.dok == c.p3a) ==> TotalIksi(c) == c.fisik
    ensures InPercentRange(c) ==> 0.0 <= TotalIksi(c) <= 100.0
  {
  }

  /** Raising any component never lowers the total. */
  lemma TotalIksiMonotone(a: Components, b: Components)
    requires a.fisik <= b.fisik && a.tanam <= b.tanam && a.sarana <= b.sarana
    requires a.sdm <= b.sdm && a.dok <= b.dok && a.p3a <= b.p3a
    ensures TotalIksi(a) <= TotalIksi(b)
  {
  }

  /** The six tables the audit reads. */
  datatype AuditData = AuditData(
    inspections: seq<Inspection>, plantings: seq<Planting>, facilities: seq<Facility>,
    documents: seq<Document>, associations: seq<string>)

  /** `hitung_skor_iksi_audit` before rounding: the six components. */
  function HitungSkorIksi(d: AuditData): Components {
    Components(PhysicalScore(d.inspections), PlantingScore(d.plantings), SaranaScore(d.facilities),
      SdmScore(d.facilities), DokScore(d.documents), P3aScore(d.associations))
  }

  /** With conditions in [0, 100], non-negative areas and 0/1 document flags,
      every component and the total lie in [0, 100]; an empty table
      contributes 0. */
  lemma AuditInRange(d: AuditData)
    requires forall k :: 0 <= k < |d.inspections| ==>
      d.inspections[k].area >= 0.0 && 0.0 <= Condition(d.inspections[k]) <= 100.0
    requires forall k :: 0 <= k < |d.documents| ==> 0 <= d.documents[k].present <= 1
    ensures InPercentRange(HitungSkorIksi(d))
    ensures 0.0 <= TotalIksi(HitungSkorIksi(d)) <= 100.0
    ensures |d.inspections| == 0 ==> HitungSkorIksi(d).fisik == 0.0
    ensures |d.plantings| == 0 ==> HitungSkorIksi(d).tanam == 0.0
    ensures |d.documents| == 0 ==> HitungSkorIksi(d).dok == 0.0
    ensures |d.associations| == 0 ==> HitungSkorIksi(d).p3a == 0.0
  {
    if |d.inspections| > 0 {
      PhysicalScoreBounds(d.inspections, 0.0, 100.0);
    }
    if |d.plantings| > 0 {
      MeanBounds(PlantingRowScores(d.plantings), 68.0, 100.0);
    }
    SaranaScoreBounds(d.facilities);
    DokScoreBounds(d.documents);
    P3aScoreBounds(d.associations);
    TotalIksiBounds(HitungSkorIksi(d));
  }
}
