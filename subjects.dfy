/**
 * The collection of animal records and the selected record, and the
 * handlers that edit them: adding a blank animal, deleting one (with the
 * rule that moves the selection), and changing a field of one record or of
 * all of them. Every handler builds a new collection and leaves the old
 * one as it was.
 */
module Subjects {
  import opened Wrappers
  import opened Seqs
  import opened Objects
  import opened Schema
  import opened Completeness

  /** The `subjects` and `selectedSubject` state of the page. */
  datatype AppState = AppState(subjects: seq<Obj>, selected: int)

  /* ---------- A blank record ---------- */

  /** `o` with every key of `fields`, in order, set to "". */
  function FillBlank(o: Obj, fields: seq<Field>): Obj {
    if fields == [] then o
    else Set(FillBlank(o, fields[..|fields| - 1]), fields[|fields| - 1].key, "")
  }

  /** A fresh object filled section by section. */
  function BlankFrom(secs: seq<Section>): Obj {
    if secs == [] then Empty
    else FillBlank(BlankFrom(secs[..|secs| - 1]), secs[|secs| - 1].fields)
  }

  /** The record `createEmptySubject` returns. */
  function EmptySubject(): Obj {
    BlankFrom(Sections)
  }

  /**
   * `createEmptySubject`: a fresh object, then for every section and every
   * field of it, the field's key set to "".
   */
  method CreateEmptySubject() returns (subj: Obj)
    ensures subj == EmptySubject()
  {
    subj := Empty;
    var s := 0;
    while s < |Sections|
      invariant 0 <= s <= |Sections|
      invariant subj == BlankFrom(Sections[..s])
    {
      assert Sections[..s + 1][..s] == Sections[..s];
      subj := BlankFields(subj, Sections[s].fields);
      s := s + 1;
    }
    assert Sections[..s] == Sections;
  }

  /** The inner loop of `createEmptySubject`: one section's keys set to "". */
  method BlankFields(o: Obj, fields: seq<Field>) returns (subj: Obj)
    ensures subj == FillBlank(o, fields)
  {
    subj := o;
    var f := 0;
    while f < |fields|
      invariant 0 <= f <= |fields|
      invariant subj == FillBlank(o, fields[..f])
    {
      var upTo := fields[..f + 1];
      assert upTo[..f] == fields[..f] && upTo[f] == fields[f];
      subj := Set(subj, fields[f].key, "");
      assert subj == FillBlank(o, upTo);
      f := f + 1;
    }
    assert fields[..f] == fields;
  }

  lemma {:induction false} FillBlankAppend(o: Obj, a: seq<Field>, b: seq<Field>)
    ensures FillBlank(o, a + b) == FillBlank(FillBlank(o, a), b)
    decreases |b|
  {
    if b == [] {
      assert a + b == a;
    } else {
      var b' := b[..|b| - 1];
      assert (a + b)[..|a + b| - 1] == a + b';
      assert (a + b)[|a + b| - 1] == b[|b| - 1];
      FillBlankAppend(o, a, b');
    }
  }

  /** Filling section by section is filling the form's fields in order. */
  lemma {:induction false} BlankFromAllFields(secs: seq<Section>)
    ensures BlankFrom(secs) == FillBlank(Empty, AllFields(secs))
  {
    if secs != [] {
      var front := secs[..|secs| - 1];
      BlankFromAllFields(front);
      FillBlankAppend(Empty, AllFields(front), secs[|secs| - 1].fields);
    }
  }

  /** Filling an empty object gives "" under every key of `fields` and nothing under any other key. */
  lemma {:induction false} FillBlankValues(fields: seq<Field>)
    ensures forall k :: Get(FillBlank(Empty, fields), k) == if k in FieldKeys(fields) then Some("") else None
  {
    if fields != [] {
      var front, f := fields[..|fields| - 1], fields[|fields| - 1];
      FillBlankValues(front);
      assert FieldKeys(fields) == FieldKeys(front) + [f.key];
    }
  }

  /** With no key repeated, filling an empty object lays the keys down in field order. */
  lemma {:induction false} FillBlankKeys(fields: seq<Field>)
    requires Distinct(FieldKeys(fields))
    ensures FillBlank(Empty, fields).keys == FieldKeys(fields)
  {
    if fields != [] {
      var front, f := fields[..|fields| - 1], fields[|fields| - 1];
      var ks := FieldKeys(fields);
      assert ks == FieldKeys(front) + [f.key];
      DistinctFront(ks);
      FillBlankKeys(front);
      AbsentKey(FillBlank(Empty, front), f.key);
    }
  }

  /**
   * The blank record has exactly the form's keys, in form order, each
   * holding "", and no other key.
   */
  lemma EmptySubjectSpec()
    ensures EmptySubject().keys == SchemaKeys()
    ensures forall k :: Get(EmptySubject(), k) == if k in SchemaKeys() then Some("") else None
  {
    BlankFromAllFields(Sections);
    SchemaKeysDistinct();
    FillBlankValues(AllFields(Sections));
    FillBlankKeys(AllFields(Sections));
  }

  /** No field is filled in a record that holds "" under each of them. */
  lemma {:induction false} BlankFieldsMissing(fields: seq<Field>, o: Obj)
    requires forall f :: f in fields ==> Get(o, f.key) == Some("")
    ensures FilledCount(fields, Some(o)) == 0
  {
    if fields != [] {
      var front := fields[..|fields| - 1];
      assert forall f :: f in front ==> f in fields;
      BlankFieldsMissing(front, o);
      assert fields[|fields| - 1] in fields;
    }
  }

  /** A freshly added animal scores 0 in every section. */
  lemma EmptySubjectScoresZero(sec: Section)
    requires sec in Sections
    ensures Percent(FilledCount(sec.fields, Some(EmptySubject())), |sec.fields|) == 0
  {
    EmptySubjectSpec();
    forall f | f in sec.fields ensures Get(EmptySubject(), f.key) == Some("") {
      assert f in AllFields(Sections);
      var i :| 0 <= i < |AllFields(Sections)| && AllFields(Sections)[i] == f;
      assert SchemaKeys()[i] == f.key;
    }
    BlankFieldsMissing(sec.fields, EmptySubject());
    SectionsHaveFields(sec);
    PercentEnds(|sec.fields|);
  }

  lemma SectionsHaveFields(sec: Section)
    requires sec in Sections
    ensures |sec.fields| > 0
  {
  }

  /* ---------- Adding an animal ---------- */

  /**
   * `handleAddAnimal`: append a blank record, and select
   * `max(selected, number of records before the append)`.
   */
  method AddAnimal(st: AppState) returns (next: AppState)
    ensures next == Added(st)
  {
    var subj := CreateEmptySubject();
    var selected := if st.selected >= |st.subjects| then st.selected else |st.subjects|;
    next := AppState(st.subjects + [subj], selected);
  }

  /**
   * The state `handleAddAnimal` leaves: the records with a blank one
   * appended, and the selection raised to at least the new record's index.
   */
  function Added(st: AppState): AppState {
    AppState(st.subjects + [EmptySubject()], if st.selected >= |st.subjects| then st.selected else |st.subjects|)
  }

  /**
   * From any selection that is in range (or 0 on an empty page), adding
   * selects the new, blank animal, and keeps every earlier one.
   */
  lemma AddSelectsNewAnimal(st: AppState)
    requires 0 <= st.selected <= |st.subjects|
    ensures Added(st).selected == |st.subjects|
    ensures Added(st).subjects[Added(st).selected] == EmptySubject()
    ensures Added(st).subjects[..|st.subjects|] == st.subjects
  {
    assert (st.subjects + [EmptySubject()])[..|st.subjects|] == st.subjects;
  }

  /* ---------- Deleting an animal ---------- */

  /** `subjects.filter((_, i) => i !== index)` */
  function RemoveAt(subjects: seq<Obj>, index: int): seq<Obj> {
    if subjects == [] then []
    else RemoveAt(subjects[..|subjects| - 1], index) + (if index == |subjects| - 1 then [] else [subjects[|subjects| - 1]])
  }

  /** Filtering out a position outside the collection removes nothing. */
  lemma {:induction false} RemoveAtOutside(subjects: seq<Obj>, index: int)
    requires !(0 <= index < |subjects|)
    ensures RemoveAt(subjects, index) == subjects
  {
    if subjects != [] {
      var front := subjects[..|subjects| - 1];
      RemoveAtOutside(front, index);
      assert subjects == front + [subjects[|subjects| - 1]];
    }
  }

  /** Filtering out position `index` removes exactly that record and keeps the others in order. */
  lemma {:induction false} RemoveAtInside(subjects: seq<Obj>, index: int)
    requires 0 <= index < |subjects|
    ensures RemoveAt(subjects, index) == subjects[..index] + subjects[index + 1..]
  {
    var front, last := subjects[..|subjects| - 1], subjects[|subjects| - 1];
    if index == |subjects| - 1 {
      RemoveAtOutside(front, index);
      assert subjects[index + 1..] == [];
    } else {
      RemoveAtInside(front, index);
      assert subjects[..index] == front[..index];
      assert subjects[index + 1..] == front[index + 1..] + [last];
    }
  }

  /**
   * The selection after a delete, given the selection `sel` before it, the
   * deleted `index` and the number of records left, by the first rule that
   * applies: after the deleted one, move back one; past the end, go to the
   * last record; on the deleted one, go to the one before it; otherwise
   * stay.
   */
  function AdjustSelection(sel: int, index: int, newLen: int): int {
    if sel > index then sel - 1
    else if sel >= newLen then (if newLen - 1 > 0 then newLen - 1 else 0)
    else if sel == index then (if sel - 1 > 0 then sel - 1 else 0)
    else sel
  }

  /** `handleDeleteAnimal(index)` */
  function DeleteAnimal(st: AppState, index: int): (next: AppState)
    ensures 0 <= index < |st.subjects| ==> next.subjects == st.subjects[..index] + st.subjects[index + 1..]
    ensures !(0 <= index < |st.subjects|) ==> next.subjects == st.subjects
  {
    var rest := RemoveAt(st.subjects, index);
    var after := AppState(rest, AdjustSelection(st.selected, index, |rest|));
    if 0 <= index < |st.subjects| then RemoveAtInside(st.subjects, index); after
    else RemoveAtOutside(st.subjects, index); after
  }

  /**
   * Deleting a record from a page whose selection is in range leaves a
   * selection in range: between 0 and the last remaining record (0 when
   * none remains).
   */
  lemma DeleteKeepsSelectionInRange(st: AppState, index: int)
    requires 0 <= index < |st.subjects|
    requires 0 <= st.selected < |st.subjects|
    ensures var next := DeleteAnimal(st, index);
      0 <= next.selected && (next.selected < |next.subjects| || next.selected == 0)
  {
  }

  /** A selected record other than the deleted one stays selected. */
  lemma DeleteFollowsSelectedAnimal(st: AppState, index: int)
    requires 0 <= index < |st.subjects|
    requires 0 <= st.selected < |st.subjects| && st.selected != index
    ensures var next := DeleteAnimal(st, index);
      0 <= next.selected < |next.subjects| && next.subjects[next.selected] == st.subjects[st.selected]
  {
  }

  /** Deleting the selected record selects the one before it, or the first. */
  lemma DeleteSelectedMovesBack(st: AppState, index: int)
    requires 0 <= index < |st.subjects| && st.selected == index
    ensures DeleteAnimal(st, index).selected == if index > 0 then index - 1 else 0
  {
  }

  /* ---------- Changing a field ---------- */

  /**
   * `handleChange(_, fieldKey, value, subjectIdx)`: with no index, every
   * record gets `fieldKey` set to `value`; with an index, only the record
   * at that position does. The collection keeps its length and order.
   */
  function HandleChange(subjects: seq<Obj>, fieldKey: string, value: string, subjectIdx: Option<int>): (r: seq<Obj>)
    ensures |r| == |subjects|
    ensures forall i :: 0 <= i < |r| && (subjectIdx.None? || subjectIdx.value == i) ==>
      r[i] == Set(subjects[i], fieldKey, value) && Get(r[i], fieldKey) == Some(value)
    ensures forall i, k :: 0 <= i < |r| && k != fieldKey ==> Get(r[i], k) == Get(subjects[i], k)
    ensures forall i :: 0 <= i < |r| && subjectIdx.Some? && subjectIdx.value != i ==> r[i] == subjects[i]
  {
    seq(|subjects|, i requires 0 <= i < |subjects| =>
      if subjectIdx.None? || subjectIdx.value == i then Set(subjects[i], fieldKey, value) else subjects[i])
  }

  /** Making the same change twice is making it once. */
  lemma HandleChangeIdempotent(subjects: seq<Obj>, fieldKey: string, value: string, subjectIdx: Option<int>)
    ensures HandleChange(HandleChange(subjects, fieldKey, value, subjectIdx), fieldKey, value, subjectIdx)
         == HandleChange(subjects, fieldKey, value, subjectIdx)
  {
    var once := HandleChange(subjects, fieldKey, value, subjectIdx);
    var twice := HandleChange(once, fieldKey, value, subjectIdx);
    forall i | 0 <= i < |subjects| ensures twice[i] == once[i] {
      if subjectIdx.None? || subjectIdx.value == i {
        SetTwice(subjects[i], fieldKey, value);
      }
    }
  }

  lemma SetTwice(o: Obj, k: string, v: string)
    ensures Set(Set(o, k, v), k, v) == Set(o, k, v)
  {
    var once := Set(o, k, v);
    assert once.vals[k := v] == once.vals;
  }

  /** An index outside the collection changes nothing. */
  lemma HandleChangeOutOfRange(subjects: seq<Obj>, fieldKey: string, value: string, idx: int)
    requires !(0 <= idx < |subjects|)
    ensures HandleChange(subjects, fieldKey, value, Some(idx)) == subjects
  {
  }
}
