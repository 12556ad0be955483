/**
 * The completeness scores of the form: which values count as missing, the
 * percentage and missing-field labels of one section for one record, the
 * global score over many records, and the Good / Average / Bad band the
 * score is shown with.
 */
module Completeness {
  import opened Wrappers
  import opened Seqs
  import opened JsString
  import opened Objects
  import opened Schema

  /* ---------- Missing values ---------- */

  /**
   * `isValueMissing` applied to a property read: an absent value is
   * missing, and so is one whose trimmed text is a missing mark.
   */
  predicate IsValueMissing(v: Option<string>) {
    match v
    case None => true
    case Some(s) => IsMissingMark(Trim(s))
  }

  /**
   * `t.toLowerCase()` is "", "na" or "-", checked character by character
   * (`MissingMarkLowered` states it on the lower-cased text).
   */
  predicate IsMissingMark(t: string) {
    || |t| == 0
    || (|t| == 1 && t[0] == '-')
    || (|t| == 2 && LowerChar(t[0]) == 'n' && LowerChar(t[1]) == 'a')
  }

  /** The missing marks are the texts whose lower-cased form is "", "na" or "-". */
  lemma MissingMarkLowered(t: string)
    ensures IsMissingMark(t) <==> ToLower(t) == "" || ToLower(t) == "na" || ToLower(t) == "-"
  {
    var l := ToLower(t);
    if |t| == 1 {
      assert l == [LowerChar(t[0])];
    } else if |t| == 2 {
      assert l == [LowerChar(t[0]), LowerChar(t[1])];
    }
  }

  /**
   * A value is missing exactly when it is absent or its trimmed text is
   * "", "-" or one of the spellings of "na"; no other case folding is
   * involved.
   */
  lemma IsValueMissingIff(v: Option<string>)
    ensures IsValueMissing(v) <==> v.None? || Trim(v.value) in ["", "-", "na", "nA", "Na", "NA"]
  {
    if v.Some? {
      var t := Trim(v.value);
      if |t| == 1 {
        assert t == [t[0]];
      } else if |t| == 2 {
        assert t == [t[0], t[1]];
      }
    }
  }

  /** An absent value and "NA" are missing. */
  lemma MissingAbsentAndNa()
    ensures IsValueMissing(None)
    ensures IsValueMissing(Some("NA"))
  {
    TrimOfTrimmed("NA");
  }

  /** " - " is missing: the dash survives trimming. */
  lemma MissingPaddedDash()
    ensures IsValueMissing(Some(" - "))
  {
    assert TrimStart(" - ") == "- ";
    assert TrimEnd("- ") == "-";
  }

  /** "0" is a value like any other, not missing. */
  lemma NotMissingZero()
    ensures !IsValueMissing(Some("0"))
  {
    TrimOfTrimmed("0");
  }

  /** "false" is a value like any other, not missing. */
  lemma NotMissingFalse()
    ensures !IsValueMissing(Some("false"))
  {
    TrimOfTrimmed("false");
  }

  /* ---------- Percentages ---------- */

  /**
   * `total === 0 ? 100 : Math.round((filled / total) * 100)`, in exact
   * arithmetic: the nearest whole percentage, halves rounded up.
   */
  function Percent(filled: nat, total: nat): (p: nat)
    ensures total == 0 ==> p == 100
    ensures filled <= total ==> p <= 100
  {
    if total == 0 then 100
    else
      var p := (200 * filled + total) / (2 * total);
      if filled <= total then RoundedAtMost100(filled, total); p else p
  }

  /**
   * The percentage is the whole number nearest to `100 * filled / total`,
   * a half rounding up: `p - 1/2 <= 100 * filled / total < p + 1/2`.
   */
  lemma PercentIsNearest(filled: nat, total: nat)
    requires total > 0
    ensures var p := Percent(filled, total); 2 * total * p <= 200 * filled + total < 2 * total * (p + 1)
  {
    DivBounds(200 * filled + total, 2 * total);
  }

  lemma RoundedAtMost100(filled: nat, total: nat)
    requires 0 < total && filled <= total
    ensures (200 * filled + total) / (2 * total) <= 100
  {
    var p := (200 * filled + total) / (2 * total);
    DivBounds(200 * filled + total, 2 * total);
    assert 2 * total * p <= 200 * total + total < 2 * total * 101;
    MulLessCancel(2 * total, p, 101);
  }

  lemma DivBounds(a: nat, b: nat)
    requires b > 0
    ensures b * (a / b) <= a < b * (a / b + 1)
  {
  }

  lemma MulLessCancel(c: nat, x: nat, y: nat)
    requires c > 0 && c * x < c * y
    ensures x < y
  {
  }

  lemma MulAddRight(a: nat, b: nat, n: nat)
    ensures (a + b) * n == a * n + b * n
  {
  }

  /** Nothing filled scores 0 and everything filled scores 100. */
  lemma PercentEnds(total: nat)
    requires total > 0
    ensures Percent(0, total) == 0
    ensures Percent(total, total) == 100
  {
    PercentIsNearest(0, total);
    PercentIsNearest(total, total);
    var p0 := Percent(0, total);
    assert 2 * total * p0 < 2 * total * 1;
    MulLessCancel(2 * total, p0, 1);
    var p1 := Percent(total, total);
    assert 2 * total * 100 < 2 * total * (p1 + 1);
    MulLessCancel(2 * total, 100, p1 + 1);
  }

  /** More filled fields never lower the percentage. */
  lemma PercentMonotone(a: nat, b: nat, total: nat)
    requires a <= b
    ensures Percent(a, total) <= Percent(b, total)
  {
    if total > 0 {
      PercentIsNearest(a, total);
      PercentIsNearest(b, total);
      var pa, pb := Percent(a, total), Percent(b, total);
      assert 2 * total * pa <= 200 * a + total <= 200 * b + total < 2 * total * (pb + 1);
      MulLessCancel(2 * total, pa, pb + 1);
    }
  }

  /* ---------- One section of one record ---------- */

  /** `data && data[key]`: with no record every value reads as undefined. */
  function Lookup(data: Option<Obj>, k: string): (v: Option<string>)
    ensures data.None? ==> v.None?
    ensures data.Some? ==> v == Get(data.value, k)
  {
    match data
    case None => None
    case Some(o) => Get(o, k)
  }

  /** The fields of `fields` whose value in `data` is filled. */
  function FilledCount(fields: seq<Field>, data: Option<Obj>): (n: nat)
    ensures n <= |fields|
  {
    if fields == [] then 0
    else
      var f := fields[|fields| - 1];
      FilledCount(fields[..|fields| - 1], data) + (if IsValueMissing(Lookup(data, f.key)) then 0 else 1)
  }

  /** The labels of the fields of `fields` whose value in `data` is missing, in field order. */
  function MissingCaptions(fields: seq<Field>, data: Option<Obj>): seq<string> {
    if fields == [] then []
    else
      var f := fields[|fields| - 1];
      MissingCaptions(fields[..|fields| - 1], data) + (if IsValueMissing(Lookup(data, f.key)) then [f.caption] else [])
  }

  /** The labels of `fields`, in order. */
  function Captions(fields: seq<Field>): (r: seq<string>)
    ensures |r| == |fields| && forall i :: 0 <= i < |fields| ==> r[i] == fields[i].caption
  {
    seq(|fields|, i requires 0 <= i < |fields| => fields[i].caption)
  }

  /** Every field is either filled or listed as missing, never both. */
  lemma {:induction false} FilledPlusMissing(fields: seq<Field>, data: Option<Obj>)
    ensures FilledCount(fields, data) + |MissingCaptions(fields, data)| == |fields|
  {
    if fields != [] {
      FilledPlusMissing(fields[..|fields| - 1], data);
    }
  }

  /** The missing labels come in field order. */
  lemma {:induction false} MissingCaptionsOrdered(fields: seq<Field>, data: Option<Obj>)
    ensures IsSubsequence(MissingCaptions(fields, data), Captions(fields))
  {
    if fields != [] {
      var front, f := fields[..|fields| - 1], fields[|fields| - 1];
      MissingCaptionsOrdered(front, data);
      var r', r := MissingCaptions(front, data), MissingCaptions(fields, data);
      var cs := Captions(fields);
      assert cs[..|cs| - 1] == Captions(front);
      assert cs[|cs| - 1] == f.caption;
      if IsValueMissing(Lookup(data, f.key)) {
        assert r == r' + [f.caption];
        assert r[..|r| - 1] == r';
      } else {
        assert r == r';
        SubsequenceSnoc(r', Captions(front), f.caption);
      }
    }
  }

  /** A field's label is listed whenever its value is missing. */
  lemma {:induction false} MissingCaptionsComplete(fields: seq<Field>, data: Option<Obj>)
    ensures forall i :: 0 <= i < |fields| && IsValueMissing(Lookup(data, fields[i].key)) ==>
      fields[i].caption in MissingCaptions(fields, data)
  {
    if fields != [] {
      var front := fields[..|fields| - 1];
      MissingCaptionsComplete(front, data);
      forall i | 0 <= i < |fields| - 1 && IsValueMissing(Lookup(data, fields[i].key))
        ensures fields[i].caption in MissingCaptions(fields, data)
      {
        assert fields[i] == front[i];
      }
    }
  }

  /** A label is listed only when some field with that label is missing. */
  lemma {:induction false} MissingCaptionsSound(fields: seq<Field>, data: Option<Obj>)
    ensures forall c :: c in MissingCaptions(fields, data) ==>
      exists i :: 0 <= i < |fields| && fields[i].caption == c && IsValueMissing(Lookup(data, fields[i].key))
  {
    if fields != [] {
      var front := fields[..|fields| - 1];
      MissingCaptionsSound(front, data);
      forall c | c in MissingCaptions(fields, data)
        ensures exists i :: 0 <= i < |fields| && fields[i].caption == c && IsValueMissing(Lookup(data, fields[i].key))
      {
        if c in MissingCaptions(front, data) {
          var i :| 0 <= i < |front| && front[i].caption == c && IsValueMissing(Lookup(data, front[i].key));
          assert fields[i] == front[i];
        } else {
          assert fields[|fields| - 1].caption == c;
        }
      }
    }
  }

  /**
   * `getSectionCompleteness`: counts the filled fields of `section` in
   * `data`, collects the labels of the missing ones, and rounds the share
   * filled to a percentage (100 for a section without fields).
   */
  method SectionCompleteness(section: Section, data: Option<Obj>) returns (percent: nat, missing: seq<string>)
    ensures percent == Percent(FilledCount(section.fields, data), |section.fields|)
    ensures missing == MissingCaptions(section.fields, data)
    ensures percent <= 100
    ensures |missing| == |section.fields| - FilledCount(section.fields, data)
  {
    var fields := section.fields;
    var total := |fields|;
    var filled := 0;
    missing := [];
    var i := 0;
    while i < |fields|
      invariant 0 <= i <= |fields|
      invariant filled == FilledCount(fields[..i], data)
      invariant missing == MissingCaptions(fields[..i], data)
    {
      var f := fields[i];
      assert fields[..i + 1][..i] == fields[..i];
      if !IsValueMissing(Lookup(data, f.key)) {
        filled := filled + 1;
      } else {
        missing := missing + [f.caption];
      }
      i := i + 1;
    }
    assert fields[..i] == fields;
    percent := Percent(filled, total);
    FilledPlusMissing(fields, data);
  }

  /* ---------- Many records ---------- */

  /** How many of `subjects` have a filled value under `k`. */
  function FilledFor(k: string, subjects: seq<Obj>): (n: nat)
    ensures n <= |subjects|
  {
    if subjects == [] then 0
    else
      var s := subjects[|subjects| - 1];
      FilledFor(k, subjects[..|subjects| - 1]) + (if IsValueMissing(Get(s, k)) then 0 else 1)
  }

  /** Filled cells of the columns `fields` over `subjects`. */
  function FilledIn(fields: seq<Field>, subjects: seq<Obj>): nat {
    if fields == [] then 0
    else FilledIn(fields[..|fields| - 1], subjects) + FilledFor(fields[|fields| - 1].key, subjects)
  }

  /** Filled cells of every section of `secs` over `subjects`. */
  function GlobalFilled(secs: seq<Section>, subjects: seq<Obj>): nat {
    if secs == [] then 0
    else GlobalFilled(secs[..|secs| - 1], subjects) + FilledIn(secs[|secs| - 1].fields, subjects)
  }

  /** Filled cells never outnumber cells. */
  lemma {:induction false} FilledInBound(fields: seq<Field>, subjects: seq<Obj>)
    ensures FilledIn(fields, subjects) <= |fields| * |subjects|
  {
    if fields != [] {
      var front := fields[..|fields| - 1];
      FilledInBound(front, subjects);
      MulAddRight(|front|, 1, |subjects|);
    }
  }

  /** `totalFields`: the cells of every section of `secs` over `n` records, section by section. */
  function TotalCells(secs: seq<Section>, n: nat): nat {
    if secs == [] then 0 else TotalCells(secs[..|secs| - 1], n) + |secs[|secs| - 1].fields| * n
  }

  /** The cells are the form's fields times the number of records. */
  lemma {:induction false} TotalCellsIsProduct(secs: seq<Section>, n: nat)
    ensures TotalCells(secs, n) == FieldCount(secs) * n
  {
    if secs != [] {
      var front := secs[..|secs| - 1];
      TotalCellsIsProduct(front, n);
      MulAddRight(FieldCount(front), |secs[|secs| - 1].fields|, n);
    }
  }

  lemma {:induction false} GlobalFilledBound(secs: seq<Section>, subjects: seq<Obj>)
    ensures GlobalFilled(secs, subjects) <= TotalCells(secs, |subjects|)
  {
    if secs != [] {
      GlobalFilledBound(secs[..|secs| - 1], subjects);
      FilledInBound(secs[|secs| - 1].fields, subjects);
    }
  }

  /**
   * The global score of `subjects` over the form `secs`: 100 when there
   * are no cells, the rounded share of filled cells otherwise.
   */
  function GlobalScore(secs: seq<Section>, subjects: seq<Obj>): (p: nat)
    ensures p <= 100
    ensures FieldCount(secs) * |subjects| == 0 ==> p == 100
  {
    GlobalFilledBound(secs, subjects);
    TotalCellsIsProduct(secs, |subjects|);
    Percent(GlobalFilled(secs, subjects), TotalCells(secs, |subjects|))
  }

  /**
   * `getGlobalCompleteness`: for every section, every field and every
   * record, count the filled cells, and round their share of all cells to
   * a percentage (100 when there are no cells).
   */
  method GlobalCompleteness(subjects: seq<Obj>) returns (score: nat)
    ensures score == GlobalScore(Sections, subjects)
    ensures score <= 100
    ensures |subjects| == 0 ==> score == 100
  {
    score := ScoreOver(Sections, subjects);
  }

  /** The loops of `getGlobalCompleteness`, over the sections `secs`. */
  method ScoreOver(secs: seq<Section>, subjects: seq<Obj>) returns (score: nat)
    ensures score == GlobalScore(secs, subjects)
  {
    var totalFields: nat := 0;
    var filledFields: nat := 0;
    var s := 0;
    while s < |secs|
      invariant 0 <= s <= |secs|
      invariant totalFields == TotalCells(secs[..s], |subjects|)
      invariant filledFields == GlobalFilled(secs[..s], subjects)
    {
      var sec := secs[s];
      assert secs[..s + 1][..s] == secs[..s];
      totalFields := totalFields + |sec.fields| * |subjects|;
      var count := FieldFilled(sec.fields, subjects);
      filledFields := filledFields + count;
      s := s + 1;
    }
    assert secs[..s] == secs;
    score := Percent(filledFields, totalFields);
  }

  /** The field loop of `getGlobalCompleteness`: filled cells of one section. */
  method FieldFilled(fields: seq<Field>, subjects: seq<Obj>) returns (count: nat)
    ensures count == FilledIn(fields, subjects)
  {
    count := 0;
    var f := 0;
    while f < |fields|
      invariant 0 <= f <= |fields|
      invariant count == FilledIn(fields[..f], subjects)
    {
      assert fields[..f + 1][..f] == fields[..f];
      var n := KeyFilled(fields[f].key, subjects);
      count := count + n;
      f := f + 1;
    }
    assert fields[..f] == fields;
  }

  /** The innermost loop of `getGlobalCompleteness`: records with a filled value under `k`. */
  method KeyFilled(k: string, subjects: seq<Obj>) returns (n: nat)
    ensures n == FilledFor(k, subjects)
  {
    n := 0;
    var j := 0;
    while j < |subjects|
      invariant 0 <= j <= |subjects|
      invariant n == FilledFor(k, subjects[..j])
    {
      assert subjects[..j + 1][..j] == subjects[..j];
      if !IsValueMissing(Get(subjects[j], k)) {
        n := n + 1;
      }
      j := j + 1;
    }
    assert subjects[..j] == subjects;
  }

  /** No missing value anywhere: every field of every record filled. */
  ghost predicate AllFilled(secs: seq<Section>, subjects: seq<Obj>) {
    forall s, f, subj :: s in secs && f in s.fields && subj in subjects ==> !IsValueMissing(Get(subj, f.key))
  }

  lemma {:induction false} FilledForAll(k: string, subjects: seq<Obj>)
    requires forall subj :: subj in subjects ==> !IsValueMissing(Get(subj, k))
    ensures FilledFor(k, subjects) == |subjects|
  {
    if subjects != [] {
      var front := subjects[..|subjects| - 1];
      assert forall subj :: subj in front ==> subj in subjects;
      FilledForAll(k, front);
    }
  }

  lemma {:induction false} FilledInAll(fields: seq<Field>, subjects: seq<Obj>)
    requires forall f, subj :: f in fields && subj in subjects ==> !IsValueMissing(Get(subj, f.key))
    ensures FilledIn(fields, subjects) == |fields| * |subjects|
  {
    if fields != [] {
      var front, last := fields[..|fields| - 1], fields[|fields| - 1];
      assert forall f :: f in front ==> f in fields;
      FilledInAll(front, subjects);
      assert forall subj :: subj in subjects ==> !IsValueMissing(Get(subj, last.key)) by {
        assert last in fields;
      }
      FilledForAll(last.key, subjects);
      MulAddRight(|front|, 1, |subjects|);
      assert |fields| == |front| + 1;
    }
  }

  lemma {:induction false} GlobalFilledAll(secs: seq<Section>, subjects: seq<Obj>)
    requires AllFilled(secs, subjects)
    ensures GlobalFilled(secs, subjects) == TotalCells(secs, |subjects|)
  {
    if secs != [] {
      var front, last := secs[..|secs| - 1], secs[|secs| - 1];
      assert AllFilled(front, subjects) by {
        assert forall s :: s in front ==> s in secs;
      }
      GlobalFilledAll(front, subjects);
      assert last in secs;
      FilledInAll(last.fields, subjects);
    }
  }

  /** With every field of every record filled, the global score is exactly 100. */
  lemma GlobalScoreFull(secs: seq<Section>, subjects: seq<Obj>)
    requires AllFilled(secs, subjects)
    ensures GlobalScore(secs, subjects) == 100
  {
    GlobalFilledAll(secs, subjects);
    if TotalCells(secs, |subjects|) > 0 {
      PercentEnds(TotalCells(secs, |subjects|));
    }
  }

  /** For a single record, the cells counted per column are that record's filled fields. */
  lemma {:induction false} FilledInOne(fields: seq<Field>, subject: Obj)
    ensures FilledIn(fields, [subject]) == FilledCount(fields, Some(subject))
  {
    if fields != [] {
      FilledInOne(fields[..|fields| - 1], subject);
      assert [subject][..0] == [];
    }
  }

  /**
   * The global score of one record over one section is that section's
   * percentage for the record, so the two scores the page shows agree.
   */
  lemma GlobalMatchesSection(sec: Section, subject: Obj)
    ensures GlobalScore([sec], [subject]) == Percent(FilledCount(sec.fields, Some(subject)), |sec.fields|)
  {
    assert [sec][..0] == [];
    assert GlobalFilled([sec], [subject]) == FilledIn(sec.fields, [subject]);
    assert TotalCells([sec], 1) == |sec.fields|;
    FilledInOne(sec.fields, subject);
  }

  /* ---------- Bands ---------- */

  /** The colour band shown beside a global score. */
  datatype Band = Good | Average | Bad

  /** At least 80 is Good, at least 50 is Average, anything lower is Bad. */
  function BandOf(score: int): (b: Band)
    ensures b == Good <==> score >= 80
    ensures b == Average <==> 50 <= score < 80
    ensures b == Bad <==> score < 50
  {
    if score >= 80 then Good else if score >= 50 then Average else Bad
  }

  function Rank(b: Band): nat {
    match b
    case Bad => 0
    case Average => 1
    case Good => 2
  }

  /** A higher score never falls into a worse band. */
  lemma BandMonotone(a: int, b: int)
    requires a <= b
    ensures Rank(BandOf(a)) <= Rank(BandOf(b))
  {
  }
}
