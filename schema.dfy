/** The form: an ordered list of sections, each an ordered list of fields. */
module Schema {
  import opened Seqs

  /** A form field: its record key and the label the form shows (`label` is a Dafny keyword). */
  datatype Field = Field(key: string, caption: string)

  datatype Section = Section(key: string, title: string, fields: seq<Field>)

  const Sections: seq<Section> := [
    Section("studyDesign", "Study Design", [
      Field("startDate", "Start date of the in\U{2011}life phase"),
      Field("endDate", "End date of the in\U{2011}life phase")
    ]),
    Section("outcomeMeasures", "Outcome Measures", [
      Field("measureName", "Outcome measure"),
      Field("measureUnit", "Unit of measurement")
    ]),
    Section("experimentalAnimals", "Experimental Animals", [
      Field("animalId", "Unique animal identifier"),
      Field("localId", "Local identifiers / other IDs"),
      Field("species", "Species"),
      Field("strainMGI", "Strain (MGI reference number)"),
      Field("sex", "Sex"),
      Field("transgenic", "Transgenic (yes/no)"),
      Field("genotype", "Genotype information"),
      Field("alleleInfo", "Allele information"),
      Field("vendorSite", "Animal vendor (site & location)"),
      Field("dob", "Date of birth"),
      Field("developmentalStage", "Developmental stage"),
      Field("weightStart", "Animal weight at start of experiment"),
      Field("weightUnit", "Weight unit"),
      Field("severityGrade", "Severity grade of manipulation")
    ]),
    Section("experimentalProcedures", "Experimental Procedures", [
      Field("testSubstanceName", "Test substance (common name)"),
      Field("testSubstanceCAS", "Test substance (CAS number)"),
      Field("doseValue", "Numerical dose"),
      Field("doseUnit", "Dose unit"),
      Field("vehicleComp", "Vehicle composition"),
      Field("routeAdmin", "Route of administration"),
      Field("adminMethod", "Administration method")
    ]),
    Section("housingHusbandry", "Housing & Husbandry", [
      Field("lightCycle", "Light cycle"),
      Field("testingLocation", "Testing location / research site"),
      Field("enrichment", "Enrichment")
    ])
  ]

  /** The keys of `fields`, in order. */
  function FieldKeys(fields: seq<Field>): (r: seq<string>)
    ensures |r| == |fields|
    ensures forall i :: 0 <= i < |fields| ==> r[i] == fields[i].key
  {
    seq(|fields|, i requires 0 <= i < |fields| => fields[i].key)
  }

  /** Every field of `secs`, section after section. */
  function AllFields(secs: seq<Section>): (r: seq<Field>)
    ensures forall s, f :: s in secs && f in s.fields ==> f in r
    ensures forall f :: f in r ==> exists s :: s in secs && f in s.fields
  {
    if secs == [] then [] else AllFields(secs[..|secs| - 1]) + secs[|secs| - 1].fields
  }

  /** The number of fields of `secs`, summed section by section. */
  function FieldCount(secs: seq<Section>): (n: nat)
    ensures n == |AllFields(secs)|
  {
    if secs == [] then 0 else FieldCount(secs[..|secs| - 1]) + |secs[|secs| - 1].fields|
  }

  /** The field keys of the whole form, in form order. */
  function SchemaKeys(): seq<string> {
    FieldKeys(AllFields(Sections))
  }

  lemma AllFieldsSnoc(secs: seq<Section>, s: Section)
    ensures AllFields(secs + [s]) == AllFields(secs) + s.fields
  {
    assert (secs + [s])[..|secs|] == secs;
  }

  /** The fields of the form, section after section. */
  lemma AllFieldsOfSchema()
    ensures AllFields(Sections)
         == Sections[0].fields + Sections[1].fields + Sections[2].fields
          + Sections[3].fields + Sections[4].fields
  {
    var s0, s1, s2, s3, s4 := Sections[0], Sections[1], Sections[2], Sections[3], Sections[4];
    AllFieldsSnoc([], s0);
    assert [] + [s0] == [s0];
    AllFieldsSnoc([s0], s1);
    assert [s0] + [s1] == [s0, s1];
    AllFieldsSnoc([s0, s1], s2);
    assert [s0, s1] + [s2] == [s0, s1, s2];
    AllFieldsSnoc([s0, s1, s2], s3);
    assert [s0, s1, s2] + [s3] == [s0, s1, s2, s3];
    AllFieldsSnoc([s0, s1, s2, s3], s4);
    assert Sections == [s0, s1, s2, s3] + [s4];
  }

  lemma FieldKeysAppend(a: seq<Field>, b: seq<Field>)
    ensures FieldKeys(a + b) == FieldKeys(a) + FieldKeys(b)
  {
    var l, r := FieldKeys(a + b), FieldKeys(a) + FieldKeys(b);
    assert |l| == |r|;
    forall i | 0 <= i < |l| ensures l[i] == r[i] {
      if i < |a| { assert (a + b)[i] == a[i]; } else { assert (a + b)[i] == b[i - |a|]; }
    }
  }

  /** The field keys of each section, in order. */
  lemma SectionKeysAre()
    ensures FieldKeys(Sections[0].fields) == ["startDate", "endDate"]
    ensures FieldKeys(Sections[1].fields) == ["measureName", "measureUnit"]
    ensures FieldKeys(Sections[2].fields) == [
      "animalId", "localId", "species", "strainMGI", "sex", "transgenic", "genotype",
      "alleleInfo", "vendorSite", "dob", "developmentalStage", "weightStart", "weightUnit",
      "severityGrade"]
    ensures FieldKeys(Sections[3].fields) == [
      "testSubstanceName", "testSubstanceCAS", "doseValue", "doseUnit", "vehicleComp",
      "routeAdmin", "adminMethod"]
    ensures FieldKeys(Sections[4].fields) == ["lightCycle", "testingLocation", "enrichment"]
  {
  }

  /** The keys of the form are the keys of its sections, one section after the other. */
  lemma SchemaKeysBySection()
    ensures SchemaKeys()
         == FieldKeys(Sections[0].fields) + FieldKeys(Sections[1].fields) + FieldKeys(Sections[2].fields)
          + FieldKeys(Sections[3].fields) + FieldKeys(Sections[4].fields)
  {
    AllFieldsOfSchema();
    var f0, f1, f2, f3, f4 := Sections[0].fields, Sections[1].fields, Sections[2].fields,
                              Sections[3].fields, Sections[4].fields;
    FieldKeysAppend(f0, f1);
    FieldKeysAppend(f0 + f1, f2);
    FieldKeysAppend(f0 + f1 + f2, f3);
    FieldKeysAppend(f0 + f1 + f2 + f3, f4);
  }

  /** The animal section repeats no key. */
  lemma AnimalFieldKeysDistinct(k2: seq<string>)
    requires k2 == [
      "animalId", "localId", "species", "strainMGI", "sex", "transgenic", "genotype",
      "alleleInfo", "vendorSite", "dob", "developmentalStage", "weightStart", "weightUnit",
      "severityGrade"]
    ensures Distinct(k2)
  {
  }

  /** The four other sections repeat no key and share none. */
  lemma OtherSectionKeys(k0: seq<string>, k1: seq<string>, k3: seq<string>, k4: seq<string>)
    requires k0 == ["startDate", "endDate"]
    requires k1 == ["measureName", "measureUnit"]
    requires k3 == [
      "testSubstanceName", "testSubstanceCAS", "doseValue", "doseUnit", "vehicleComp",
      "routeAdmin", "adminMethod"]
    requires k4 == ["lightCycle", "testingLocation", "enrichment"]
    ensures Distinct(k0) && Distinct(k1) && Distinct(k3) && Distinct(k4)
    ensures Disjoint(k0, k1) && Disjoint(k0, k3) && Disjoint(k0, k4)
    ensures Disjoint(k1, k3) && Disjoint(k1, k4) && Disjoint(k3, k4)
  {
  }

  /** The animal section shares no key with the two sections before it. */
  lemma AnimalFieldKeysApartEarly(k0: seq<string>, k1: seq<string>, k2: seq<string>)
    requires k0 == ["startDate", "endDate"]
    requires k1 == ["measureName", "measureUnit"]
    requires k2 == [
      "animalId", "localId", "species", "strainMGI", "sex", "transgenic", "genotype",
      "alleleInfo", "vendorSite", "dob", "developmentalStage", "weightStart", "weightUnit",
      "severityGrade"]
    ensures Disjoint(k0, k2) && Disjoint(k1, k2)
  {
  }

  /** The animal section shares no key with the two sections after it. */
  lemma AnimalFieldKeysApartLate(k2: seq<string>, k3: seq<string>, k4: seq<string>)
    requires k2 == [
      "animalId", "localId", "species", "strainMGI", "sex", "transgenic", "genotype",
      "alleleInfo", "vendorSite", "dob", "developmentalStage", "weightStart", "weightUnit",
      "severityGrade"]
    requires k3 == [
      "testSubstanceName", "testSubstanceCAS", "doseValue", "doseUnit", "vehicleComp",
      "routeAdmin", "adminMethod"]
    requires k4 == ["lightCycle", "testingLocation", "enrichment"]
    ensures Disjoint(k2, k3) && Disjoint(k2, k4)
  {
  }

  /** No key occurs twice in the form. */
  lemma SchemaKeysDistinct()
    ensures Distinct(SchemaKeys())
  {
    var k0, k1, k2 := FieldKeys(Sections[0].fields), FieldKeys(Sections[1].fields), FieldKeys(Sections[2].fields);
    var k3, k4 := FieldKeys(Sections[3].fields), FieldKeys(Sections[4].fields);
    SchemaKeysBySection();
    SectionKeysAre();
    AnimalFieldKeysDistinct(k2);
    OtherSectionKeys(k0, k1, k3, k4);
    AnimalFieldKeysApartEarly(k0, k1, k2);
    AnimalFieldKeysApartLate(k2, k3, k4);
    DistinctRuns(k0, k1, k2, k3, k4);
  }
}
