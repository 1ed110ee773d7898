/** The two code-to-label dictionaries of the dashboard script (courses and
    father's occupations) and the reverse lookup it uses to turn a label chosen
    in a select box back into a code. A dictionary literal is modelled by its
    (code, label) items in insertion order, because the reverse lookup is a
    first-match search over those items. */
module Catalogs {
  import opened Outcomes

  /** A dictionary literal as its (code, label) items in insertion order. The
      items stand for the dictionary only when their codes are distinct, as a
      literal's keys are once duplicates are merged; `CourseCatalogWellFormed`
      and `OccupationCatalogWellFormed` prove it for both tables, and the
      lemmas about `AsMap` and the round trips require it. */
  type Catalog = seq<(int, string)>

  /** No two items share a code (a dictionary literal's keys). */
  ghost predicate DistinctCodes(c: Catalog) {
    forall i, j :: 0 <= i < j < |c| ==> c[i].0 != c[j].0
  }

  /** Each code is smaller than the next one; both catalogs are written so. */
  ghost predicate Ascending(c: Catalog) {
    forall i :: 0 <= i < |c| - 1 ==> c[i].0 < c[i + 1].0
  }

  /** No two items share a label: the dictionary is injective. */
  ghost predicate DistinctLabels(c: Catalog) {
    forall i, j :: 0 <= i < j < |c| ==> c[i].1 != c[j].1
  }

  /** No label of `a` is a label of `b`. */
  ghost predicate LabelsApart(a: Catalog, b: Catalog) {
    forall i, j :: 0 <= i < |a| && 0 <= j < |b| ==> a[i].1 != b[j].1
  }

  /** `list(m.values())`: the labels in insertion order, as the select boxes offer them. */
  function Labels(c: Catalog): seq<string> {
    seq(|c|, i requires 0 <= i < |c| => c[i].1)
  }

  /** The dictionary the literal denotes; a later item overrides an earlier one
      with the same code, as in Python. */
  function AsMap(c: Catalog): map<int, string> {
    if c == [] then map[] else AsMap(c[..|c| - 1])[c[|c| - 1].0 := c[|c| - 1].1]
  }

  /** `[k for k, v in m.items() if v == name]`: the codes labelled `name`, in item order. */
  function CodesLabelled(c: Catalog, name: string): (ks: seq<int>)
    ensures |ks| <= |c|
    ensures ks == [] <==> forall i :: 0 <= i < |c| ==> c[i].1 != name
    ensures ks != [] ==> exists i :: 0 <= i < |c| && c[i] == (ks[0], name) && forall j :: 0 <= j < i ==> c[j].1 != name
  {
    if c == [] then []
    else if c[0].1 == name then [c[0].0] + CodesLabelled(c[1..], name)
    else
      var rest := CodesLabelled(c[1..], name);
      assert forall i :: 1 <= i < |c| ==> c[i] == c[1..][i - 1];
      if rest == [] then rest
      else
        ghost var i' :| 0 <= i' < |c| - 1 && c[1..][i'] == (rest[0], name) && forall j :: 0 <= j < i' ==> c[1..][j].1 != name;
        assert c[i' + 1] == (rest[0], name);
        rest
  }

  /** `[k for k, v in m.items() if v == name][0]`; None where Python raises IndexError
      because no item carries the label. */
  function ReverseLookup(c: Catalog, name: string): (r: Option<int>)
    ensures r.Some? <==> name in Labels(c)
    ensures r.Some? ==> exists i :: 0 <= i < |c| && c[i] == (r.value, name) && forall j :: 0 <= j < i ==> c[j].1 != name
  {
    var ks := CodesLabelled(c, name);
    assert forall i :: 0 <= i < |c| ==> Labels(c)[i] == c[i].1;
    if ks == [] then None else Some(ks[0])
  }

  /** Every item of a literal with distinct codes is an entry of its dictionary. */
  lemma {:induction false} AsMapAt(c: Catalog, i: int)
    requires DistinctCodes(c) && 0 <= i < |c|
    ensures c[i].0 in AsMap(c) && AsMap(c)[c[i].0] == c[i].1
  {
    var n := |c| - 1;
    if i < n {
      assert DistinctCodes(c[..n]) by {
        forall a, b | 0 <= a < b < n ensures c[..n][a].0 != c[..n][b].0 {
          assert c[..n][a] == c[a] && c[..n][b] == c[b];
        }
      }
      assert c[..n][i] == c[i];
      AsMapAt(c[..n], i);
    }
  }

  /** The dictionary's keys are exactly the items' codes. */
  lemma {:induction false} AsMapKeys(c: Catalog, code: int)
    ensures code in AsMap(c) <==> exists i :: 0 <= i < |c| && c[i].0 == code
  {
    if c != [] {
      var n := |c| - 1;
      AsMapKeys(c[..n], code);
      if code in AsMap(c[..n]) {
        var i :| 0 <= i < n && c[..n][i].0 == code;
        assert c[i].0 == code;
      }
      if exists i :: 0 <= i < |c| && c[i].0 == code {
        var i :| 0 <= i < |c| && c[i].0 == code;
        if i < n { assert c[..n][i].0 == code; }
      }
    }
  }

  /** When labels are distinct, looking up the label of item i finds item i's code. */
  lemma LookupFindsItem(c: Catalog, i: int)
    requires DistinctLabels(c) && 0 <= i < |c|
    ensures ReverseLookup(c, c[i].1) == Some(c[i].0)
  {
    assert Labels(c)[i] == c[i].1;
    var r := ReverseLookup(c, c[i].1);
    var j :| 0 <= j < |c| && c[j] == (r.value, c[i].1) && forall k :: 0 <= k < j ==> c[k].1 != c[i].1;
    assert j == i;
  }

  /** Code to label and back: for an injective dictionary, reverse-looking-up
      `m[code]` gives `code` again. */
  lemma CodeRoundTrip(c: Catalog, code: int)
    requires DistinctCodes(c) && DistinctLabels(c) && code in AsMap(c)
    ensures ReverseLookup(c, AsMap(c)[code]) == Some(code)
  {
    AsMapKeys(c, code);
    var i :| 0 <= i < |c| && c[i].0 == code;
    AsMapAt(c, i);
    LookupFindsItem(c, i);
  }

  /** Label to code and back: a label offered by the select box resolves to a
      code whose dictionary entry is that label. */
  lemma LabelRoundTrip(c: Catalog, name: string)
    requires DistinctCodes(c) && name in Labels(c)
    ensures ReverseLookup(c, name).Some?
    ensures ReverseLookup(c, name).value in AsMap(c) && AsMap(c)[ReverseLookup(c, name).value] == name
  {
    var r := ReverseLookup(c, name);
    var i :| 0 <= i < |c| && c[i] == (r.value, name) && forall j :: 0 <= j < i ==> c[j].1 != name;
    AsMapAt(c, i);
  }

  lemma {:induction false} AscendingOrdered(c: Catalog, i: int, j: int)
    requires Ascending(c) && 0 <= i < j < |c|
    ensures c[i].0 < c[j].0
    decreases j - i
  {
    if i + 1 < j {
      AscendingOrdered(c, i + 1, j);
    }
  }

  /** Ascending codes are distinct codes. */
  lemma AscendingDistinct(c: Catalog)
    requires Ascending(c)
    ensures DistinctCodes(c)
  {
    forall i, j | 0 <= i < j < |c| ensures c[i].0 != c[j].0 {
      AscendingOrdered(c, i, j);
    }
  }

  lemma AscendingAppend(a: Catalog, b: Catalog)
    requires Ascending(a) && Ascending(b)
    requires a != [] && b != [] && a[|a| - 1].0 < b[0].0
    ensures Ascending(a + b) && (a + b)[0] == a[0] && (a + b)[|a + b| - 1] == b[|b| - 1]
  {
    forall i | 0 <= i < |a + b| - 1 ensures (a + b)[i].0 < (a + b)[i + 1].0 {
      if i + 1 < |a| {
        assert (a + b)[i] == a[i] && (a + b)[i + 1] == a[i + 1];
      } else if i >= |a| {
        assert (a + b)[i] == b[i - |a|] && (a + b)[i + 1] == b[i + 1 - |a|];
      }
    }
  }

  lemma DistinctLabelsAppend(a: Catalog, b: Catalog)
    requires DistinctLabels(a) && DistinctLabels(b) && LabelsApart(a, b)
    ensures DistinctLabels(a + b)
  {
    forall i, j | 0 <= i < j < |a + b| ensures (a + b)[i].1 != (a + b)[j].1 {
      if j < |a| {
        assert (a + b)[i] == a[i] && (a + b)[j] == a[j];
      } else if i >= |a| {
        assert (a + b)[i] == b[i - |a|] && (a + b)[j] == b[j - |a|];
      } else {
        assert (a + b)[i] == a[i] && (a + b)[j] == b[j - |a|];
      }
    }
  }

  lemma LabelsApartAppend(a: Catalog, b: Catalog, c: Catalog)
    requires LabelsApart(a, b) && LabelsApart(a, c)
    ensures LabelsApart(a, b + c)
  {
    forall i, j | 0 <= i < |a| && 0 <= j < |b + c| ensures a[i].1 != (b + c)[j].1 {
      if j < |b| { assert (b + c)[j] == b[j]; } else { assert (b + c)[j] == c[j - |b|]; }
    }
  }

  // ---------------------------------------------------------------------------
  // The course dictionary (written twice in the script, identically)

  const CourseCatalog: Catalog := [
        (33, "Biofuel Production Technologies"),
        (171, "Animation and Multimedia Design"),
        (8014, "Social Service (evening attendance)"),
        (9003, "Agronomy"),
        (9070, "Communication Design"),
        (9085, "Veterinary Nursing"),
        (9119, "Informatics Engineering"),
        (9130, "Equinculture"),
        (9147, "Management"),
        (9238, "Social Service"),
        (9254, "Tourism"),
        (9500, "Nursing"),
        (9556, "Oral Hygiene"),
        (9670, "Advertising and Marketing Management"),
        (9773, "Journalism and Communication"),
        (9853, "Basic Education"),
        (9991, "Management (evening attendance)")
  ]

  lemma CourseCatalogAscending()
    ensures |CourseCatalog| == 17 && Ascending(CourseCatalog)
  {
  }

  lemma CourseCatalogDistinct()
    ensures DistinctLabels(CourseCatalog)
  {
  }

  lemma CourseCatalogWellFormed()
    ensures |CourseCatalog| == 17
    ensures DistinctCodes(CourseCatalog) && DistinctLabels(CourseCatalog)
  {
    CourseCatalogAscending();
    CourseCatalogDistinct();
    AscendingDistinct(CourseCatalog);
  }

  /** Every course code resolves back to itself through its label. */
  lemma CourseCodeRoundTrip(code: int)
    requires code in AsMap(CourseCatalog)
    ensures ReverseLookup(CourseCatalog, AsMap(CourseCatalog)[code]) == Some(code)
  {
    CourseCatalogWellFormed();
    CodeRoundTrip(CourseCatalog, code);
  }

  /** Every label the course select box offers resolves, and to the code it labels. */
  lemma CourseLabelResolves(name: string)
    requires name in Labels(CourseCatalog)
    ensures ReverseLookup(CourseCatalog, name).Some?
    ensures ReverseLookup(CourseCatalog, name).value in AsMap(CourseCatalog)
    ensures AsMap(CourseCatalog)[ReverseLookup(CourseCatalog, name).value] == name
  {
    CourseCatalogWellFormed();
    LabelRoundTrip(CourseCatalog, name);
  }

  // ---------------------------------------------------------------------------
  // The father's-occupation dictionary. Its items are kept in four consecutive
  // blocks (the single-digit groups with 90 and 99, then the three-digit codes
  // of groups 0-3, 4-6 and 7-9) whose concatenation is the literal, item for
  // item; the blocks only keep each distinctness proof small.

  const OccupationGroups: Catalog := [
        (0, "Student"),
        (1, "Representatives of the Legislative Power and Executive Bodies, Directors, Directors and Executive Managers"),
        (2, "Specialists in Intellectual and Scientific Activities"),
        (3, "Intermediate Level Technicians and Professions"),
        (4, "Administrative staff"),
        (5, "Personal Services, Security and Safety Workers and Sellers"),
        (6, "Farmers and Skilled Workers in Agriculture, Fisheries and Forestry"),
        (7, "Skilled Workers in Industry, Construction and Craftsmen"),
        (8, "Installation and Machine Operators and Assembly Workers"),
        (9, "Unskilled Workers"),
        (10, "Armed Forces Professions"),
        (90, "Other Situation"),
        (99, "(blank)")
  ]

  const OccupationCodes0To3: Catalog := [
        (101, "Armed Forces Officers"),
        (102, "Armed Forces Sergeants"),
        (103, "Other Armed Forces personnel"),
        (112, "Directors of administrative and commercial services"),
        (114, "Hotel, catering, trade and other services directors"),
        (121, "Specialists in the physical sciences, mathematics, engineering and related techniques"),
        (122, "Health professionals"),
        (123, "Teachers"),
        (124, "Specialists in finance, accounting, administrative organization, public and commercial relations"),
        (131, "Intermediate level science and engineering technicians and professions"),
        (132, "Technicians and professionals, of intermediate level of health"),
        (134, "Intermediate level technicians from legal, social, sports, cultural and similar services"),
        (135, "Information and communication technology technicians")
  ]

  const OccupationCodes4To6: Catalog := [
        (141, "Office workers, secretaries in general and data processing operators"),
        (143, "Data, accounting, statistical, financial services and registry-related operators"),
        (144, "Other administrative support staff"),
        (151, "Personal service workers"),
        (152, "Sellers"),
        (153, "Personal care workers and the like"),
        (154, "Protection and security services personnel"),
        (161, "Market-oriented farmers and skilled agricultural and animal production workers"),
        (163, "Farmers, livestock keepers, fishermen, hunters and gatherers, subsistence")
  ]

  const OccupationCodes7To9: Catalog := [
        (171, "Skilled construction workers and the like, except electricians"),
        (172, "Skilled workers in metallurgy, metalworking and similar"),
        (174, "Skilled workers in electricity and electronics"),
        (175, "Workers in food processing, woodworking, clothing and other industries and crafts"),
        (181, "Fixed plant and machine operators"),
        (182, "Assembly workers"),
        (183, "Vehicle drivers and mobile equipment operators"),
        (192, "Unskilled workers in agriculture, animal production, fisheries and forestry"),
        (193, "Unskilled workers in extractive industry, construction, manufacturing and transport"),
        (194, "Meal preparation assistants"),
        (195, "Street vendors (except food) and street service providers")
  ]

  const FathersOccupationCatalog: Catalog :=
    OccupationGroups + OccupationCodes0To3 + OccupationCodes4To6 + OccupationCodes7To9

  lemma OccupationGroupsAscending()
    ensures |OccupationGroups| == 13 && Ascending(OccupationGroups)
    ensures OccupationGroups[0].0 == 0 && OccupationGroups[12].0 == 99
  {
  }

  lemma OccupationGroupsDistinct()
    ensures DistinctLabels(OccupationGroups)
  {
  }

  lemma OccupationCodes0To3Ascending()
    ensures |OccupationCodes0To3| == 13 && Ascending(OccupationCodes0To3)
    ensures OccupationCodes0To3[0].0 == 101 && OccupationCodes0To3[12].0 == 135
  {
  }

  lemma OccupationCodes0To3Distinct()
    ensures DistinctLabels(OccupationCodes0To3)
  {
  }

  lemma OccupationCodes4To6Ascending()
    ensures |OccupationCodes4To6| == 9 && Ascending(OccupationCodes4To6)
    ensures OccupationCodes4To6[0].0 == 141 && OccupationCodes4To6[8].0 == 163
  {
  }

  lemma OccupationCodes4To6Distinct()
    ensures DistinctLabels(OccupationCodes4To6)
  {
  }

  lemma OccupationCodes7To9Ascending()
    ensures |OccupationCodes7To9| == 11 && Ascending(OccupationCodes7To9)
    ensures OccupationCodes7To9[0].0 == 171 && OccupationCodes7To9[10].0 == 195
  {
  }

  lemma OccupationCodes7To9Distinct()
    ensures DistinctLabels(OccupationCodes7To9)
  {
  }

  lemma OccupationGroupsApartFromCodes0To3()
    ensures LabelsApart(OccupationGroups, OccupationCodes0To3)
  {
  }

  lemma OccupationGroupsApartFromCodes4To6()
    ensures LabelsApart(OccupationGroups, OccupationCodes4To6)
  {
  }

  lemma OccupationGroupsApartFromCodes7To9()
    ensures LabelsApart(OccupationGroups, OccupationCodes7To9)
  {
  }

  lemma OccupationCodes0To3ApartFromCodes4To6()
    ensures LabelsApart(OccupationCodes0To3, OccupationCodes4To6)
  {
  }

  lemma OccupationCodes0To3ApartFromCodes7To9()
    ensures LabelsApart(OccupationCodes0To3, OccupationCodes7To9)
  {
  }

  lemma OccupationCodes4To6ApartFromCodes7To9()
    ensures LabelsApart(OccupationCodes4To6, OccupationCodes7To9)
  {
  }

  /** The occupation codes ascend across the four blocks. */
  lemma OccupationCatalogAscending()
    ensures |FathersOccupationCatalog| == 46
    ensures Ascending(FathersOccupationCatalog) && DistinctCodes(FathersOccupationCatalog)
  {
    var g, a, b, c := OccupationGroups, OccupationCodes0To3, OccupationCodes4To6, OccupationCodes7To9;
    OccupationGroupsAscending();
    OccupationCodes0To3Ascending();
    OccupationCodes4To6Ascending();
    OccupationCodes7To9Ascending();
    AscendingAppend(g, a);
    AscendingAppend(g + a, b);
    AscendingAppend(g + a + b, c);
    AscendingDistinct(g + a + b + c);
  }

  /** No two occupation labels coincide, within or across blocks. */
  lemma OccupationCatalogLabelsDistinct()
    ensures DistinctLabels(FathersOccupationCatalog)
  {
    var g, a, b, c := OccupationGroups, OccupationCodes0To3, OccupationCodes4To6, OccupationCodes7To9;
    OccupationGroupsDistinct();
    OccupationCodes0To3Distinct();
    OccupationCodes4To6Distinct();
    OccupationCodes7To9Distinct();
    OccupationGroupsApartFromCodes0To3();
    OccupationGroupsApartFromCodes4To6();
    OccupationGroupsApartFromCodes7To9();
    OccupationCodes0To3ApartFromCodes4To6();
    OccupationCodes0To3ApartFromCodes7To9();
    OccupationCodes4To6ApartFromCodes7To9();
    DistinctLabelsAppend(b, c);
    LabelsApartAppend(a, b, c);
    DistinctLabelsAppend(a, b + c);
    LabelsApartAppend(g, b, c);
    LabelsApartAppend(g, a, b + c);
    DistinctLabelsAppend(g, a + (b + c));
    assert g + a + b + c == g + (a + (b + c));
  }

  /** The father's-occupation dictionary is injective with 46 items. */
  lemma OccupationCatalogWellFormed()
    ensures |FathersOccupationCatalog| == 46
    ensures Ascending(FathersOccupationCatalog) && DistinctCodes(FathersOccupationCatalog)
    ensures DistinctLabels(FathersOccupationCatalog)
  {
    OccupationCatalogAscending();
    OccupationCatalogLabelsDistinct();
  }

  /** Every father's-occupation code resolves back to itself through its label. */
  lemma OccupationCodeRoundTrip(code: int)
    requires code in AsMap(FathersOccupationCatalog)
    ensures ReverseLookup(FathersOccupationCatalog, AsMap(FathersOccupationCatalog)[code]) == Some(code)
  {
    OccupationCatalogWellFormed();
    CodeRoundTrip(FathersOccupationCatalog, code);
  }

  /** Every label the occupation select box offers resolves, and to the code it labels. */
  lemma OccupationLabelResolves(name: string)
    requires name in Labels(FathersOccupationCatalog)
    ensures ReverseLookup(FathersOccupationCatalog, name).Some?
    ensures ReverseLookup(FathersOccupationCatalog, name).value in AsMap(FathersOccupationCatalog)
    ensures AsMap(FathersOccupationCatalog)[ReverseLookup(FathersOccupationCatalog, name).value] == name
  {
    OccupationCatalogWellFormed();
    LabelRoundTrip(FathersOccupationCatalog, name);
  }
}
