/**
 * The table between template column headers and record keys, header
 * normalisation and validation, and the two directions of the mapping:
 * an imported row to a record, and a record to an exported row.
 */
module HeaderMap {
  import opened Wrappers
  import opened Seqs
  import opened JsString
  import opened Objects
  import opened Schema

  /** One column of the template: its header and the record key it fills. */
  datatype Entry = Entry(header: string, key: string)

  /* The template `csvToFieldMap`, in column order, as five runs of columns. */

  /** The animal's columns. */
  const AnimalColumns: seq<Entry> := [
    Entry("Unique_Animal_Identifier", "animalId"),
    Entry("Local_Identifiers", "localId"),
    Entry("Species", "species"),
    Entry("Strain_ILAR_Name", "strainMGI"),
    Entry("Strain_Short_Name", "strainShortName"),
    Entry("Sex", "sex"),
    Entry("Transgenic", "transgenic"),
    Entry("Genotype_Information", "genotype"),
    Entry("Allele_Information", "alleleInfo"),
    Entry("Animal_Vendor", "vendorSite"),
    Entry("Date_of_Birth", "dob"),
    Entry("Developmental_Stage", "developmentalStage"),
    Entry("Animal_Weight_at_Start", "weightStart"),
    Entry("Weight_Unit", "weightUnit"),
    Entry("Severity_Grade_of_Manipulation", "severityGrade")
  ]

  /** The in-life phase's columns. */
  const StudyColumns: seq<Entry> := [
    Entry("In-life_Phase_Start_Date", "startDate"),
    Entry("In-life_Phase_End_Date", "endDate")
  ]

  /** The procedure's columns. */
  const ProcedureColumns: seq<Entry> := [
    Entry("Test_Substance_Common_Name", "testSubstanceName"),
    Entry("Test_Substance_CAS_Number", "testSubstanceCAS"),
    Entry("Numerical_Dose", "doseValue"),
    Entry("Dose_Unit", "doseUnit"),
    Entry("Vehicle_Composition", "vehicleComp"),
    Entry("Route_of_Administration", "routeAdmin"),
    Entry("Administration_Method", "adminMethod")
  ]

  /** The housing columns. */
  const HousingColumns: seq<Entry> := [
    Entry("Testing_Location", "testingLocation"),
    Entry("Light_Cycle", "lightCycle"),
    Entry("Enrichment", "enrichment")
  ]

  /** The outcome columns. */
  const OutcomeColumns: seq<Entry> := [
    Entry("Outcome_Measure", "measureName"),
    Entry("Value", "value"),
    Entry("Unit_of_Measurement", "measureUnit")
  ]

  /** The whole template, in column order. Every header is required on import. */
  const HeaderTable: seq<Entry> :=
    AnimalColumns + StudyColumns + ProcedureColumns + HousingColumns + OutcomeColumns

  function Headers(t: seq<Entry>): (r: seq<string>)
    ensures |r| == |t| && forall i :: 0 <= i < |t| ==> r[i] == t[i].header
  {
    seq(|t|, i requires 0 <= i < |t| => t[i].header)
  }

  function Keys(t: seq<Entry>): (r: seq<string>)
    ensures |r| == |t| && forall i :: 0 <= i < |t| ==> r[i] == t[i].key
  {
    seq(|t|, i requires 0 <= i < |t| => t[i].key)
  }

  /** `Object.keys(csvToFieldMap)`: the headers every imported file must have. */
  const RequiredHeaders: seq<string> := Headers(HeaderTable)

  /** The record keys the template fills, in column order. */
  const TableKeys: seq<string> := Keys(HeaderTable)

  predicate IsLetter(c: char) {
    'A' <= c <= 'Z' || 'a' <= c <= 'z'
  }

  /** A header that starts and ends with a letter, so that trimming leaves it alone. */
  predicate LetterEdged(h: string) {
    |h| > 0 && IsLetter(h[0]) && IsLetter(h[|h| - 1])
  }

  /** Every header of `hs` is letter-edged. */
  ghost predicate AllEdged(hs: seq<string>) {
    forall i :: 0 <= i < |hs| ==> LetterEdged(hs[i])
  }

  lemma AllEdgedAppend(a: seq<string>, b: seq<string>)
    requires AllEdged(a) && AllEdged(b)
    ensures AllEdged(a + b)
  {
    forall i | 0 <= i < |a + b| ensures LetterEdged((a + b)[i]) {
      if i < |a| { assert (a + b)[i] == a[i]; } else { assert (a + b)[i] == b[i - |a|]; }
    }
  }

  lemma HeadersAppend(a: seq<Entry>, b: seq<Entry>)
    ensures Headers(a + b) == Headers(a) + Headers(b) && Keys(a + b) == Keys(a) + Keys(b)
  {
    assert forall i :: 0 <= i < |a| ==> (a + b)[i] == a[i];
    assert forall i :: 0 <= i < |b| ==> (a + b)[|a| + i] == b[i];
  }

  /** The template's headers and keys are those of its five runs, one after the other. */
  lemma TableByRuns()
    ensures RequiredHeaders == Headers(AnimalColumns) + Headers(StudyColumns) + Headers(ProcedureColumns)
                             + Headers(HousingColumns) + Headers(OutcomeColumns)
    ensures TableKeys == Keys(AnimalColumns) + Keys(StudyColumns) + Keys(ProcedureColumns)
                       + Keys(HousingColumns) + Keys(OutcomeColumns)
  {
    var a, s, p, h, o := AnimalColumns, StudyColumns, ProcedureColumns, HousingColumns, OutcomeColumns;
    HeadersAppend(a, s);
    HeadersAppend(a + s, p);
    HeadersAppend(a + s + p, h);
    HeadersAppend(a + s + p + h, o);
  }

  /** The headers and keys of the animal's columns. */
  lemma AnimalColumnsAre()
    ensures Headers(AnimalColumns) == [
      "Unique_Animal_Identifier", "Local_Identifiers", "Species", "Strain_ILAR_Name",
      "Strain_Short_Name", "Sex", "Transgenic", "Genotype_Information", "Allele_Information",
      "Animal_Vendor", "Date_of_Birth", "Developmental_Stage", "Animal_Weight_at_Start",
      "Weight_Unit", "Severity_Grade_of_Manipulation"]
    ensures Keys(AnimalColumns) == [
      "animalId", "localId", "species", "strainMGI", "strainShortName", "sex", "transgenic",
      "genotype", "alleleInfo", "vendorSite", "dob", "developmentalStage", "weightStart",
      "weightUnit", "severityGrade"]
  {
  }

  /** The headers and keys of the four shorter runs. */
  lemma SmallRunsAre()
    ensures Headers(StudyColumns) == ["In-life_Phase_Start_Date", "In-life_Phase_End_Date"]
    ensures Keys(StudyColumns) == ["startDate", "endDate"]
    ensures Headers(ProcedureColumns) == [
      "Test_Substance_Common_Name", "Test_Substance_CAS_Number", "Numerical_Dose", "Dose_Unit",
      "Vehicle_Composition", "Route_of_Administration", "Administration_Method"]
    ensures Keys(ProcedureColumns) == [
      "testSubstanceName", "testSubstanceCAS", "doseValue", "doseUnit", "vehicleComp",
      "routeAdmin", "adminMethod"]
    ensures Headers(HousingColumns) == ["Testing_Location", "Light_Cycle", "Enrichment"]
    ensures Keys(HousingColumns) == ["testingLocation", "lightCycle", "enrichment"]
    ensures Headers(OutcomeColumns) == ["Outcome_Measure", "Value", "Unit_of_Measurement"]
    ensures Keys(OutcomeColumns) == ["measureName", "value", "measureUnit"]
  {
  }

  /** The animal's headers repeat none and are letter-edged. */
  lemma AnimalHeadersWellFormed(hs: seq<string>)
    requires hs == [
      "Unique_Animal_Identifier", "Local_Identifiers", "Species", "Strain_ILAR_Name",
      "Strain_Short_Name", "Sex", "Transgenic", "Genotype_Information", "Allele_Information",
      "Animal_Vendor", "Date_of_Birth", "Developmental_Stage", "Animal_Weight_at_Start",
      "Weight_Unit", "Severity_Grade_of_Manipulation"]
    ensures Distinct(hs) && AllEdged(hs)
  {
  }

  /** The animal's keys repeat none. */
  lemma AnimalColumnKeysDistinct(ks: seq<string>)
    requires ks == [
      "animalId", "localId", "species", "strainMGI", "strainShortName", "sex", "transgenic",
      "genotype", "alleleInfo", "vendorSite", "dob", "developmentalStage", "weightStart",
      "weightUnit", "severityGrade"]
    ensures Distinct(ks)
  {
  }

  /** The headers of the four shorter runs repeat none and share none. */
  lemma SmallRunHeaders(s: seq<string>, p: seq<string>, h: seq<string>, o: seq<string>)
    requires s == ["In-life_Phase_Start_Date", "In-life_Phase_End_Date"]
    requires p == [
      "Test_Substance_Common_Name", "Test_Substance_CAS_Number", "Numerical_Dose", "Dose_Unit",
      "Vehicle_Composition", "Route_of_Administration", "Administration_Method"]
    requires h == ["Testing_Location", "Light_Cycle", "Enrichment"]
    requires o == ["Outcome_Measure", "Value", "Unit_of_Measurement"]
    ensures Distinct(s) && Distinct(p) && Distinct(h) && Distinct(o)
    ensures Disjoint(s, p) && Disjoint(s, h) && Disjoint(s, o)
    ensures Disjoint(p, h) && Disjoint(p, o) && Disjoint(h, o)
  {
  }

  /** The headers of the four shorter runs are letter-edged. */
  lemma SmallRunHeadersEdged(s: seq<string>, p: seq<string>, h: seq<string>, o: seq<string>)
    requires s == ["In-life_Phase_Start_Date", "In-life_Phase_End_Date"]
    requires p == [
      "Test_Substance_Common_Name", "Test_Substance_CAS_Number", "Numerical_Dose", "Dose_Unit",
      "Vehicle_Composition", "Route_of_Administration", "Administration_Method"]
    requires h == ["Testing_Location", "Light_Cycle", "Enrichment"]
    requires o == ["Outcome_Measure", "Value", "Unit_of_Measurement"]
    ensures AllEdged(s) && AllEdged(p) && AllEdged(h) && AllEdged(o)
  {
  }

  /** The keys of the four shorter runs repeat none and share none. */
  lemma SmallRunKeys(s: seq<string>, p: seq<string>, h: seq<string>, o: seq<string>)
    requires s == ["startDate", "endDate"]
    requires p == [
      "testSubstanceName", "testSubstanceCAS", "doseValue", "doseUnit", "vehicleComp",
      "routeAdmin", "adminMethod"]
    requires h == ["testingLocation", "lightCycle", "enrichment"]
    requires o == ["measureName", "value", "measureUnit"]
    ensures Distinct(s) && Distinct(p) && Distinct(h) && Distinct(o)
    ensures Disjoint(s, p) && Disjoint(s, h) && Disjoint(s, o)
    ensures Disjoint(p, h) && Disjoint(p, o) && Disjoint(h, o)
  {
  }

  /** The animal's headers share none with the study's and the procedure's. */
  lemma AnimalHeadersApartEarly(a: seq<string>, s: seq<string>, p: seq<string>)
    requires a == [
      "Unique_Animal_Identifier", "Local_Identifiers", "Species", "Strain_ILAR_Name",
      "Strain_Short_Name", "Sex", "Transgenic", "Genotype_Information", "Allele_Information",
      "Animal_Vendor", "Date_of_Birth", "Developmental_Stage", "Animal_Weight_at_Start",
      "Weight_Unit", "Severity_Grade_of_Manipulation"]
    requires s == ["In-life_Phase_Start_Date", "In-life_Phase_End_Date"]
    requires p == [
      "Test_Substance_Common_Name", "Test_Substance_CAS_Number", "Numerical_Dose", "Dose_Unit",
      "Vehicle_Composition", "Route_of_Administration", "Administration_Method"]
    ensures Disjoint(a, s) && Disjoint(a, p)
  {
  }

  /** The animal's headers share none with the housing and outcome headers. */
  lemma AnimalHeadersApartLate(a: seq<string>, h: seq<string>, o: seq<string>)
    requires a == [
      "Unique_Animal_Identifier", "Local_Identifiers", "Species", "Strain_ILAR_Name",
      "Strain_Short_Name", "Sex", "Transgenic", "Genotype_Information", "Allele_Information",
      "Animal_Vendor", "Date_of_Birth", "Developmental_Stage", "Animal_Weight_at_Start",
      "Weight_Unit", "Severity_Grade_of_Manipulation"]
    requires h == ["Testing_Location", "Light_Cycle", "Enrichment"]
    requires o == ["Outcome_Measure", "Value", "Unit_of_Measurement"]
    ensures Disjoint(a, h) && Disjoint(a, o)
  {
  }

  /** The animal's keys share none with the study's and the procedure's. */
  lemma AnimalColumnKeysApartEarly(a: seq<string>, s: seq<string>, p: seq<string>)
    requires a == [
      "animalId", "localId", "species", "strainMGI", "strainShortName", "sex", "transgenic",
      "genotype", "alleleInfo", "vendorSite", "dob", "developmentalStage", "weightStart",
      "weightUnit", "severityGrade"]
    requires s == ["startDate", "endDate"]
    requires p == [
      "testSubstanceName", "testSubstanceCAS", "doseValue", "doseUnit", "vehicleComp",
      "routeAdmin", "adminMethod"]
    ensures Disjoint(a, s) && Disjoint(a, p)
  {
  }

  /** The animal's keys share none with the housing and outcome keys. */
  lemma AnimalColumnKeysApartLate(a: seq<string>, h: seq<string>, o: seq<string>)
    requires a == [
      "animalId", "localId", "species", "strainMGI", "strainShortName", "sex", "transgenic",
      "genotype", "alleleInfo", "vendorSite", "dob", "developmentalStage", "weightStart",
      "weightUnit", "severityGrade"]
    requires h == ["testingLocation", "lightCycle", "enrichment"]
    requires o == ["measureName", "value", "measureUnit"]
    ensures Disjoint(a, h) && Disjoint(a, o)
  {
  }

  /** No header of the template repeats, and every header is letter-edged. */
  lemma TableHeadersWellFormed()
    ensures Distinct(RequiredHeaders) && AllEdged(RequiredHeaders)
  {
    var a, s, p := Headers(AnimalColumns), Headers(StudyColumns), Headers(ProcedureColumns);
    var h, o := Headers(HousingColumns), Headers(OutcomeColumns);
    TableByRuns();
    AnimalColumnsAre();
    SmallRunsAre();
    AnimalHeadersWellFormed(a);
    SmallRunHeaders(s, p, h, o);
    SmallRunHeadersEdged(s, p, h, o);
    AnimalHeadersApartEarly(a, s, p);
    AnimalHeadersApartLate(a, h, o);
    DistinctRuns(a, s, p, h, o);
    AllEdgedAppend(a, s);
    AllEdgedAppend(a + s, p);
    AllEdgedAppend(a + s + p, h);
    AllEdgedAppend(a + s + p + h, o);
  }

  /** No record key of the template repeats. */
  lemma TableKeysDistinct()
    ensures Distinct(TableKeys)
  {
    var a, s, p := Keys(AnimalColumns), Keys(StudyColumns), Keys(ProcedureColumns);
    var h, o := Keys(HousingColumns), Keys(OutcomeColumns);
    TableByRuns();
    AnimalColumnsAre();
    SmallRunsAre();
    AnimalColumnKeysDistinct(a);
    SmallRunKeys(s, p, h, o);
    AnimalColumnKeysApartEarly(a, s, p);
    AnimalColumnKeysApartLate(a, h, o);
    DistinctRuns(a, s, p, h, o);
  }

  /** No header or key of the template repeats, and every header is letter-edged. */
  lemma TableWellFormed()
    ensures Distinct(RequiredHeaders) && Distinct(TableKeys)
    ensures forall i :: 0 <= i < |RequiredHeaders| ==> LetterEdged(RequiredHeaders[i])
  {
    TableHeadersWellFormed();
    TableKeysDistinct();
  }

  /** Every element of `a` occurs somewhere in `b`. */
  ghost predicate Within(a: seq<string>, b: seq<string>) {
    forall i :: 0 <= i < |a| ==> a[i] in b
  }

  /** The animal section's fields are all among the animal's columns; one column has no field. */
  lemma AnimalFieldsWithin(k: seq<string>, t: seq<string>)
    requires k == [
      "animalId", "localId", "species", "strainMGI", "sex", "transgenic", "genotype",
      "alleleInfo", "vendorSite", "dob", "developmentalStage", "weightStart", "weightUnit",
      "severityGrade"]
    requires t == [
      "animalId", "localId", "species", "strainMGI", "strainShortName", "sex", "transgenic",
      "genotype", "alleleInfo", "vendorSite", "dob", "developmentalStage", "weightStart",
      "weightUnit", "severityGrade"]
    ensures Within(k, t) && "strainShortName" !in k && "value" !in k
  {
  }

  /** The outcome and housing sections' fields are among their columns, in another order. */
  lemma SmallFieldsWithin(k1: seq<string>, o: seq<string>, k4: seq<string>, h: seq<string>)
    requires k1 == ["measureName", "measureUnit"]
    requires o == ["measureName", "value", "measureUnit"]
    requires k4 == ["lightCycle", "testingLocation", "enrichment"]
    requires h == ["testingLocation", "lightCycle", "enrichment"]
    ensures Within(k1, o) && Within(k4, h)
    ensures "strainShortName" !in k1 + k4 && "value" !in k1 + k4
  {
  }

  /** The study and procedure sections' fields carry neither of the two extra template keys. */
  lemma OtherFieldsApart(k0: seq<string>, k3: seq<string>)
    requires k0 == ["startDate", "endDate"]
    requires k3 == [
      "testSubstanceName", "testSubstanceCAS", "doseValue", "doseUnit", "vehicleComp",
      "routeAdmin", "adminMethod"]
    ensures "strainShortName" !in k0 + k3 && "value" !in k0 + k3
  {
  }

  lemma WithinSelf(a: seq<string>)
    ensures Within(a, a)
  {
  }

  /** Run by run inclusion gives inclusion of the concatenations, in any order of runs. */
  lemma WithinRuns(k0: seq<string>, k1: seq<string>, k2: seq<string>, k3: seq<string>, k4: seq<string>,
                   a: seq<string>, s: seq<string>, p: seq<string>, h: seq<string>, o: seq<string>)
    requires Within(k0, s) && Within(k1, o) && Within(k2, a) && Within(k3, p) && Within(k4, h)
    ensures Within(k0 + k1 + k2 + k3 + k4, a + s + p + h + o)
  {
    var ks, t := k0 + k1 + k2 + k3 + k4, a + s + p + h + o;
    forall i | 0 <= i < |ks| ensures ks[i] in t {
      var x := ks[i];
      assert x in k0 || x in k1 || x in k2 || x in k3 || x in k4;
    }
  }

  /**
   * Every field of the form has a template column, so an export carries
   * every field; the two template keys "strainShortName" and "value" have
   * no field in the form.
   */
  lemma FormKeysImported()
    ensures forall i :: 0 <= i < |SchemaKeys()| ==> SchemaKeys()[i] in TableKeys
    ensures "strainShortName" in TableKeys && "strainShortName" !in SchemaKeys()
    ensures "value" in TableKeys && "value" !in SchemaKeys()
  {
    SchemaKeysBySection();
    SectionKeysAre();
    TableByRuns();
    AnimalColumnsAre();
    SmallRunsAre();
    var k0, k1, k2 := FieldKeys(Sections[0].fields), FieldKeys(Sections[1].fields), FieldKeys(Sections[2].fields);
    var k3, k4 := FieldKeys(Sections[3].fields), FieldKeys(Sections[4].fields);
    var a, st, pr := Keys(AnimalColumns), Keys(StudyColumns), Keys(ProcedureColumns);
    var ho, ou := Keys(HousingColumns), Keys(OutcomeColumns);
    AnimalFieldsWithin(k2, a);
    SmallFieldsWithin(k1, ou, k4, ho);
    OtherFieldsApart(k0, k3);
    WithinSelf(st);
    WithinSelf(pr);
    WithinRuns(k0, k1, k2, k3, k4, a, st, pr, ho, ou);
    assert a[4] == "strainShortName" && ou[1] == "value";
  }

  /**
   * `normalizeHeader`: drop one leading byte-order mark, then trim. The
   * mark is itself whitespace to `trim`, so this is exactly the trim.
   */
  function NormalizeHeader(h: string): (r: string)
    ensures r == Trim(h)
  {
    var s := if |h| > 0 && h[0] == '\U{FEFF}' then h[1..] else h;
    if s != h then TrimSkipsLeadingWhitespace(h); Trim(s) else Trim(s)
  }

  /** Normalising an already normalised header changes nothing. */
  lemma NormalizeHeaderIdempotent(h: string)
    ensures NormalizeHeader(NormalizeHeader(h)) == NormalizeHeader(h)
  {
    TrimIdempotent(h);
  }

  /** `headers.map(normalizeHeader)` */
  function NormalizeAll(hs: seq<string>): (r: seq<string>)
    ensures |r| == |hs| && forall i :: 0 <= i < |hs| ==> r[i] == NormalizeHeader(hs[i])
  {
    seq(|hs|, i requires 0 <= i < |hs| => NormalizeHeader(hs[i]))
  }

  /** Headers that start and end with a letter are in normal form. */
  lemma LetterEdgedNormalized(hs: seq<string>)
    requires forall i :: 0 <= i < |hs| ==> LetterEdged(hs[i])
    ensures NormalizeAll(hs) == hs
  {
    forall i | 0 <= i < |hs| ensures NormalizeHeader(hs[i]) == hs[i] {
      TrimOfTrimmed(hs[i]);
    }
  }

  /** The template headers are already in normal form. */
  lemma RequiredHeadersNormalized()
    ensures NormalizeAll(RequiredHeaders) == RequiredHeaders
  {
    TableWellFormed();
    LetterEdgedNormalized(RequiredHeaders);
  }

  /** `req.filter(h => !present.includes(h))` */
  function MissingFrom(req: seq<string>, present: seq<string>): seq<string> {
    if req == [] then []
    else
      var r' := MissingFrom(req[..|req| - 1], present);
      var h := req[|req| - 1];
      if h in present then r' else r' + [h]
  }

  /** The filter keeps exactly the absent headers, in their order. */
  lemma {:induction false} MissingFromMembers(req: seq<string>, present: seq<string>)
    ensures forall h :: h in MissingFrom(req, present) <==> h in req && h !in present
    ensures IsSubsequence(MissingFrom(req, present), req)
  {
    if req != [] {
      var req', h := req[..|req| - 1], req[|req| - 1];
      var r' := MissingFrom(req', present);
      MissingFromMembers(req', present);
      assert req == req' + [h];
      if h !in present {
        assert (r' + [h])[..|r'|] == r';
      }
    }
  }

  /** The outcome of `validateHeaders`. */
  datatype Validation = Validation(missing: seq<string>, ok: bool)

  /**
   * `validateHeaders` against the required headers `required`: the
   * normalised required headers, in their order, that do not occur among
   * the normalised `headers`; `ok` exactly when there are none.
   */
  function Validate(required: seq<string>, headers: seq<string>): (v: Validation)
    ensures v.ok <==> v.missing == []
    ensures forall h :: h in v.missing <==> h in NormalizeAll(required) && h !in NormalizeAll(headers)
    ensures IsSubsequence(v.missing, NormalizeAll(required))
  {
    var req, norm := NormalizeAll(required), NormalizeAll(headers);
    MissingFromMembers(req, norm);
    var missing := MissingFrom(req, norm);
    Validation(missing, |missing| == 0)
  }

  /** `validateHeaders` as the page calls it, against the template headers. */
  function ValidateHeaders(headers: seq<string>): (v: Validation)
    ensures v.ok <==> v.missing == []
  {
    Validate(RequiredHeaders, headers)
  }

  /** With required headers already in normal form, validation reports them as they are. */
  lemma ValidateNormalized(required: seq<string>, headers: seq<string>)
    requires NormalizeAll(required) == required
    ensures forall h :: h in Validate(required, headers).missing <==> h in required && h !in NormalizeAll(headers)
    ensures IsSubsequence(Validate(required, headers).missing, required)
  {
  }

  /**
   * The template headers, in template order, that do not occur among the
   * normalised `headers` are missing; the file passes exactly when none are.
   */
  lemma ValidateHeadersSpec(headers: seq<string>)
    ensures var v := ValidateHeaders(headers);
      && (v.ok <==> v.missing == [])
      && (forall h :: h in v.missing ==> h in RequiredHeaders && h !in NormalizeAll(headers))
      && (forall h :: h in RequiredHeaders && h !in NormalizeAll(headers) ==> h in v.missing)
      && IsSubsequence(v.missing, RequiredHeaders)
  {
    RequiredHeadersNormalized();
    ValidateNormalized(RequiredHeaders, headers);
  }

  /** Padding and byte-order marks around headers do not change the verdict. */
  lemma ValidateIgnoresPadding(headers: seq<string>)
    ensures ValidateHeaders(NormalizeAll(headers)) == ValidateHeaders(headers)
  {
    var once := NormalizeAll(headers);
    assert NormalizeAll(once) == once by {
      forall i | 0 <= i < |once| ensures NormalizeHeader(once[i]) == once[i] {
        NormalizeHeaderIdempotent(headers[i]);
      }
    }
  }

  /** A file with every template header passes. */
  lemma ValidateAllHeaders()
    ensures ValidateHeaders(RequiredHeaders) == Validation([], true)
  {
    RequiredHeadersNormalized();
    ValidateSelf(RequiredHeaders);
  }

  /** Normalised required headers validate themselves. */
  lemma ValidateSelf(required: seq<string>)
    requires NormalizeAll(required) == required
    ensures Validate(required, required) == Validation([], true)
  {
    MissingFromNone(required, required);
  }

  /** Filtering a concatenation filters each part. */
  lemma {:induction false} MissingFromAppend(a: seq<string>, b: seq<string>, present: seq<string>)
    ensures MissingFrom(a + b, present) == MissingFrom(a, present) + MissingFrom(b, present)
    decreases |b|
  {
    if b == [] {
      assert a + b == a;
    } else {
      var b' := b[..|b| - 1];
      assert (a + b)[..|a + b| - 1] == a + b';
      MissingFromAppend(a, b', present);
    }
  }

  /** Nothing is missing when every header is present. */
  lemma {:induction false} MissingFromNone(req: seq<string>, present: seq<string>)
    requires forall k :: 0 <= k < |req| ==> req[k] in present
    ensures MissingFrom(req, present) == []
  {
    if req != [] {
      MissingFromNone(req[..|req| - 1], present);
    }
  }

  /** In a list without repeats, the element at i occurs nowhere else. */
  lemma OnlyAt(req: seq<string>, i: int)
    requires Distinct(req) && 0 <= i < |req|
    ensures req[i] !in req[..i] + req[i + 1..]
  {
    var present := req[..i] + req[i + 1..];
    forall j | 0 <= j < |present| ensures present[j] != req[i] {
      if j < i { assert present[j] == req[j]; } else { assert present[j] == req[j + 1]; }
    }
  }

  /**
   * Dropping the header at `i` from a list of distinct headers leaves
   * exactly that header missing.
   */
  lemma MissingOne(req: seq<string>, i: int)
    requires Distinct(req) && 0 <= i < |req|
    ensures MissingFrom(req, req[..i] + req[i + 1..]) == [req[i]]
  {
    OnlyAt(req, i);
    assert req == req[..i] + [req[i]] + req[i + 1..];
    MissingMiddle(req[..i], req[i], req[i + 1..], req);
  }

  /** Filtering `before + [x] + after` by `before + after` leaves `[x]` alone. */
  lemma MissingMiddle(before: seq<string>, x: string, after: seq<string>, req: seq<string>)
    requires req == before + [x] + after && x !in before + after
    ensures MissingFrom(req, before + after) == [x]
  {
    var present := before + after;
    assert forall k :: 0 <= k < |before| ==> before[k] == present[k];
    MissingFromNone(before, present);
    assert forall k :: 0 <= k < |after| ==> after[k] == present[|before| + k];
    MissingFromNone(after, present);
    assert [x][..0] == [];
    MissingFromAppend(before + [x], after, present);
    MissingFromAppend(before, [x], present);
  }

  /** Leaving one header out of a normalised list keeps it normalised. */
  lemma NormalizedWithoutOne(hs: seq<string>, i: int)
    requires NormalizeAll(hs) == hs && 0 <= i < |hs|
    ensures NormalizeAll(hs[..i] + hs[i + 1..]) == hs[..i] + hs[i + 1..]
  {
    var rest := hs[..i] + hs[i + 1..];
    forall j | 0 <= j < |rest| ensures NormalizeHeader(rest[j]) == rest[j] {
      var k := if j < i then j else j + 1;
      assert rest[j] == hs[k];
      assert NormalizeAll(hs)[k] == hs[k];
    }
  }

  /** A file with every template header but one fails, naming only that one. */
  lemma ValidateWithoutOne(i: int)
    requires 0 <= i < |RequiredHeaders|
    ensures ValidateHeaders(RequiredHeaders[..i] + RequiredHeaders[i + 1..]) == Validation([RequiredHeaders[i]], false)
  {
    TableWellFormed();
    RequiredHeadersNormalized();
    ValidateDropOne(RequiredHeaders, i);
  }

  /** Normalised, distinct required headers without the one at `i` fail on exactly that one. */
  lemma ValidateDropOne(required: seq<string>, i: int)
    requires NormalizeAll(required) == required && Distinct(required) && 0 <= i < |required|
    ensures Validate(required, required[..i] + required[i + 1..]) == Validation([required[i]], false)
  {
    NormalizedWithoutOne(required, i);
    MissingOne(required, i);
  }

  lemma SpeciesIsThird()
    ensures RequiredHeaders[2] == "Species"
  {
    assert HeaderTable[2] == AnimalColumns[2];
    assert RequiredHeaders[2] == HeaderTable[2].header;
  }

  /** A file without the `Species` column fails, naming only `Species`. */
  lemma ValidateWithoutSpecies()
    ensures ValidateHeaders(RequiredHeaders[..2] + RequiredHeaders[3..]) == Validation(["Species"], false)
  {
    ValidateWithoutOne(2);
    SpeciesIsThird();
  }

  /* ---------- Import: a parsed row becomes a record ---------- */

  /**
   * Columns `t` of the import loop applied to `row`: each key whose header
   * the row defines receives that cell.
   */
  function ImportEntries(row: Obj, t: seq<Entry>): Obj {
    if t == [] then Empty
    else
      var mapped := ImportEntries(row, t[..|t| - 1]);
      var e := t[|t| - 1];
      if e.header in row.vals then Set(mapped, e.key, row.vals[e.header]) else mapped
  }

  /** The record the import builds from one row. */
  function ImportMapping(row: Obj): Obj {
    ImportEntries(row, HeaderTable)
  }

  lemma {:induction false} ImportEntriesSpec(row: Obj, t: seq<Entry>)
    requires Distinct(Keys(t))
    ensures forall i :: 0 <= i < |t| ==> Get(ImportEntries(row, t), t[i].key) == Get(row, t[i].header)
    ensures forall k :: k !in Keys(t) ==> Get(ImportEntries(row, t), k) == None
    ensures IsSubsequence(ImportEntries(row, t).keys, Keys(t))
  {
    if t != [] {
      var t', e := t[..|t| - 1], t[|t| - 1];
      assert Keys(t') == Keys(t)[..|t| - 1];
      ImportEntriesSpec(row, t');
      var before := ImportEntries(row, t');
      assert e.key !in Keys(t') by {
        forall j | 0 <= j < |t'| ensures Keys(t')[j] != e.key {
          assert Keys(t)[j] == Keys(t')[j] && Keys(t)[|t| - 1] == e.key;
        }
      }
      if e.header in row.vals {
        assert e.key !in before.vals;
        var after := ImportEntries(row, t);
        assert after.keys == before.keys + [e.key];
        assert after.keys[..|after.keys| - 1] == before.keys;
      } else {
        var ks := before.keys;
        if ks != [] {
          assert ks[|ks| - 1] in before.vals;
          assert ks[|ks| - 1] != e.key;
        }
      }
      forall i | 0 <= i < |t| ensures Get(ImportEntries(row, t), t[i].key) == Get(row, t[i].header) {
        if i < |t| - 1 {
          assert t[i] == t'[i];
          assert t[i].key != e.key by { assert Keys(t)[i] != Keys(t)[|t| - 1]; }
        }
      }
    }
  }

  /**
   * The imported record holds, for every template column whose header the
   * row defines, that cell under the column's key, and nothing else; its
   * keys come in template order.
   */
  lemma ImportMappingSpec(row: Obj)
    ensures forall e :: e in HeaderTable ==> Get(ImportMapping(row), e.key) == Get(row, e.header)
    ensures forall k :: k !in TableKeys ==> Get(ImportMapping(row), k) == None
    ensures IsSubsequence(ImportMapping(row).keys, TableKeys)
  {
    TableWellFormed();
    ImportEntriesSpec(row, HeaderTable);
  }

  /**
   * The import loop for one row: walks the template `table` column by
   * column and fills a fresh record. The application passes `HeaderTable`.
   */
  method ImportRow(row: Obj, table: seq<Entry>) returns (mapped: Obj)
    ensures mapped == ImportEntries(row, table)
  {
    mapped := Empty;
    var i := 0;
    while i < |table|
      invariant 0 <= i <= |table|
      invariant mapped == ImportEntries(row, table[..i])
    {
      var e, upTo := table[i], table[..i + 1];
      assert upTo[..i] == table[..i] && upTo[i] == e;
      if e.header in row.vals {
        mapped := Set(mapped, e.key, row.vals[e.header]);
      }
      assert mapped == ImportEntries(row, upTo);
      i := i + 1;
    }
    assert table[..i] == table;
  }

  /** `rows.map(...)` over the import columns `t`. */
  function ImportAll(rows: seq<Obj>, t: seq<Entry>): seq<Obj> {
    MapSeq((row: Obj) => ImportEntries(row, t), rows)
  }

  /** Record `i` of the import is row `i` imported. */
  lemma ImportAllIndex(rows: seq<Obj>, t: seq<Entry>)
    ensures |ImportAll(rows, t)| == |rows|
    ensures forall i :: 0 <= i < |rows| ==> ImportAll(rows, t)[i] == ImportEntries(rows[i], t)
  {
    MapSeqIndex((row: Obj) => ImportEntries(row, t), rows);
  }

  /** `rows.map(...)`: one record per row, in order. */
  method ImportRows(rows: seq<Obj>, table: seq<Entry>) returns (records: seq<Obj>)
    ensures records == ImportAll(rows, table)
  {
    records := [];
    var i := 0;
    while i < |rows|
      invariant 0 <= i <= |rows|
      invariant records == ImportAll(rows[..i], table)
    {
      var mapped := ImportRow(rows[i], table);
      assert rows[..i + 1][..i] == rows[..i];
      records := records + [mapped];
      i := i + 1;
    }
    assert rows[..i] == rows;
  }

  /* ---------- Export: a record becomes a row ---------- */

  /** `subject[fieldKey] || ""`: the value, or the empty string when absent. */
  function ValueOr(subject: Obj, k: string): (v: string)
    ensures v == match Get(subject, k) case Some(x) => x case None => ""
  {
    if k in subject.vals && subject.vals[k] != "" then subject.vals[k] else ""
  }

  /** Columns `t` of the export loop applied to `subject`. */
  function ExportEntries(subject: Obj, t: seq<Entry>): Obj {
    if t == [] then Empty
    else
      var e := t[|t| - 1];
      Set(ExportEntries(subject, t[..|t| - 1]), e.header, ValueOr(subject, e.key))
  }

  /** The row the export builds from one record. */
  function ExportMapping(subject: Obj): Obj {
    ExportEntries(subject, HeaderTable)
  }

  lemma {:induction false} ExportEntriesSpec(subject: Obj, t: seq<Entry>)
    requires Distinct(Headers(t))
    ensures ExportEntries(subject, t).keys == Headers(t)
    ensures forall i :: 0 <= i < |t| ==> Get(ExportEntries(subject, t), t[i].header) == Some(ValueOr(subject, t[i].key))
  {
    if t != [] {
      var t', e := t[..|t| - 1], t[|t| - 1];
      assert Headers(t) == Headers(t') + [e.header];
      DistinctFront(Headers(t));
      ExportEntriesSpec(subject, t');
      var before := ExportEntries(subject, t');
      AbsentKey(before, e.header);
      forall i | 0 <= i < |t| - 1
        ensures Get(ExportEntries(subject, t), t[i].header) == Some(ValueOr(subject, t[i].key))
      {
        assert t[i] == t'[i];
        assert Headers(t')[i] == t[i].header;
      }
    }
  }

  /**
   * Every exported row has exactly the template headers, in template order,
   * each holding the record's value for its key or "" when it has none.
   */
  lemma ExportMappingSpec(subject: Obj)
    ensures ExportMapping(subject).keys == RequiredHeaders
    ensures forall e :: e in HeaderTable ==> Get(ExportMapping(subject), e.header) == Some(ValueOr(subject, e.key))
  {
    TableWellFormed();
    ExportEntriesSpec(subject, HeaderTable);
  }

  /**
   * The export loop for one record: walks the template `table` column by
   * column and fills a fresh row. The application passes `HeaderTable`.
   */
  method ExportRow(subject: Obj, table: seq<Entry>) returns (row: Obj)
    ensures row == ExportEntries(subject, table)
  {
    row := Empty;
    var i := 0;
    while i < |table|
      invariant 0 <= i <= |table|
      invariant row == ExportEntries(subject, table[..i])
    {
      var e, upTo := table[i], table[..i + 1];
      assert upTo[..i] == table[..i] && upTo[i] == e;
      row := Set(row, e.header, ValueOr(subject, e.key));
      assert row == ExportEntries(subject, upTo);
      i := i + 1;
    }
    assert table[..i] == table;
  }

  /** `subjects.map(...)` over the export columns `t`. */
  function ExportAll(subjects: seq<Obj>, t: seq<Entry>): seq<Obj> {
    MapSeq((subject: Obj) => ExportEntries(subject, t), subjects)
  }

  /** Row `i` of the export is record `i` exported. */
  lemma ExportAllIndex(subjects: seq<Obj>, t: seq<Entry>)
    ensures |ExportAll(subjects, t)| == |subjects|
    ensures forall i :: 0 <= i < |subjects| ==> ExportAll(subjects, t)[i] == ExportEntries(subjects[i], t)
  {
    MapSeqIndex((subject: Obj) => ExportEntries(subject, t), subjects);
  }

  /** `subjects.map(...)`: one row per record, in order. */
  method ExportRows(subjects: seq<Obj>, table: seq<Entry>) returns (rows: seq<Obj>)
    ensures rows == ExportAll(subjects, table)
  {
    rows := [];
    var i := 0;
    while i < |subjects|
      invariant 0 <= i <= |subjects|
      invariant rows == ExportAll(subjects[..i], table)
    {
      var row := ExportRow(subjects[i], table);
      assert subjects[..i + 1][..i] == subjects[..i];
      rows := rows + [row];
      i := i + 1;
    }
    assert subjects[..i] == subjects;
  }

  /* ---------- The round trip ---------- */

  /** A row that defines every header of `t` fills every key of `t`, in order. */
  lemma {:induction false} ImportAllPresent(row: Obj, t: seq<Entry>)
    requires Distinct(Keys(t))
    requires forall i :: 0 <= i < |t| ==> t[i].header in row.vals
    ensures ImportEntries(row, t).keys == Keys(t)
  {
    if t != [] {
      var t', e := t[..|t| - 1], t[|t| - 1];
      assert Keys(t) == Keys(t') + [e.key];
      DistinctFront(Keys(t));
      assert forall i :: 0 <= i < |t'| ==> t'[i] == t[i];
      ImportAllPresent(row, t');
      AbsentKey(ImportEntries(row, t'), e.key);
    }
  }

  /** The round trip over any table whose headers and keys are each distinct. */
  lemma RoundTripEntries(subject: Obj, t: seq<Entry>)
    requires Distinct(Headers(t)) && Distinct(Keys(t))
    ensures ImportEntries(ExportEntries(subject, t), t).keys == Keys(t)
    ensures forall i :: 0 <= i < |t| ==> Get(ImportEntries(ExportEntries(subject, t), t), t[i].key) == Some(ValueOr(subject, t[i].key))
  {
    var row := ExportEntries(subject, t);
    ExportEntriesSpec(subject, t);
    ImportEntriesSpec(row, t);
    forall i | 0 <= i < |t| ensures t[i].header in row.vals {
      assert Get(row, t[i].header).Some?;
    }
    ImportAllPresent(row, t);
  }

  /**
   * Importing an exported row gives back a record with every template key,
   * in template order, holding the original value, or "" where the
   * original had none.
   */
  lemma RoundTrip(subject: Obj)
    ensures ImportMapping(ExportMapping(subject)).keys == TableKeys
    ensures forall e :: e in HeaderTable ==> Get(ImportMapping(ExportMapping(subject)), e.key) == Some(ValueOr(subject, e.key))
  {
    TableWellFormed();
    RoundTripEntries(subject, HeaderTable);
  }
}
