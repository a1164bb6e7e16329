/** The field normaliser of the ingester (src/ingest.py): clean_text,
    translate_text, merge_columns and transform_row, which turn one raw
    RappelConso record into the fourteen-field message that is published. */
module Normalize {
  import opened Wrappers

  /** Python truthiness of an optional string: `None` and `""` are both false. */
  predicate Truthy(t: Option<string>) {
    t.Some? && t.value != ""
  }

  /** The characters that `\s` matches in a Python 3 `str` pattern and that
      `str.strip()` removes (the characters for which `str.isspace()` holds). */
  predicate IsSpace(c: char) {
    var n := c as int;
    n == 0x20 || 0x09 <= n <= 0x0D || 0x1C <= n <= 0x1F || n == 0x85 || n == 0xA0
    || n == 0x1680 || 0x2000 <= n <= 0x200A || n == 0x2028 || n == 0x2029
    || n == 0x202F || n == 0x205F || n == 0x3000
  }

  /** `s` holds no whitespace character. */
  predicate NoSpace(s: string) {
    forall i :: 0 <= i < |s| ==> !IsSpace(s[i])
  }

  // ---------------------------------------------------------------------
  // clean_text as the code computes it: re.sub(r'\s+', ' ', text).strip()
  // ---------------------------------------------------------------------

  /** `s` without its leading whitespace. */
  function SkipSpaces(s: string): (r: string)
    ensures |r| <= |s| && r == s[|s| - |r|..]
    ensures r == [] || !IsSpace(r[0])
    ensures forall i :: 0 <= i < |s| - |r| ==> IsSpace(s[i])
  {
    if s != [] && IsSpace(s[0]) then
      var r := SkipSpaces(s[1..]);
      SpaceThenSpaces(s, |s| - |r|);
      r
    else s
  }

  /** A whitespace character followed by `n - 1` more is `n` of them. */
  lemma SpaceThenSpaces(s: string, n: int)
    requires s != [] && IsSpace(s[0]) && 1 <= n <= |s|
    requires forall i :: 0 <= i < n - 1 ==> IsSpace(s[1..][i])
    ensures forall i :: 0 <= i < n ==> IsSpace(s[i])
  {
    forall i | 1 <= i < n
      ensures IsSpace(s[i])
    {
      assert s[i] == s[1..][i - 1];
    }
  }

  /** `s` without its trailing whitespace. */
  function SkipTrailingSpaces(s: string): (r: string)
    ensures |r| <= |s| && r == s[..|r|]
    ensures r == [] || !IsSpace(r[|r| - 1])
    ensures forall i :: |r| <= i < |s| ==> IsSpace(s[i])
  {
    if s != [] && IsSpace(s[|s| - 1]) then SkipTrailingSpaces(s[..|s| - 1]) else s
  }

  /** Python's `str.strip()` with no argument: `rstrip` after `lstrip`. */
  function Strip(s: string): string {
    SkipTrailingSpaces(SkipSpaces(s))
  }

  /** `re.sub(r'\s+', ' ', s)`: every maximal run of whitespace becomes one space. */
  function Collapse(s: string): string
    decreases |s|
  {
    if s == [] then []
    else if IsSpace(s[0]) then " " + Collapse(SkipSpaces(s[1..]))
    else [s[0]] + Collapse(s[1..])
  }

  // ---------------------------------------------------------------------
  // The reference meaning: the words of the text joined by single spaces
  // ---------------------------------------------------------------------

  /** The longest whitespace-free prefix of `s`. */
  function TakeWord(s: string): (w: string)
    ensures |w| <= |s| && w == s[..|w|]
    ensures NoSpace(w)
    ensures |w| == |s| || IsSpace(s[|w|])
  {
    if s == [] || IsSpace(s[0]) then [] else [s[0]] + TakeWord(s[1..])
  }

  /** The maximal runs of non-whitespace characters of `s`, in order. */
  function Words(s: string): seq<string>
    decreases |s|
  {
    if s == [] then []
    else if IsSpace(s[0]) then Words(s[1..])
    else
      var w := TakeWord(s);
      [w] + Words(s[|w|..])
  }

  predicate IsWord(w: string) {
    w != [] && NoSpace(w)
  }

  predicate AllWords(ws: seq<string>) {
    forall i :: 0 <= i < |ws| ==> IsWord(ws[i])
  }

  /** The words joined with one space between neighbours. */
  function Unwords(ws: seq<string>): string {
    if ws == [] then []
    else if |ws| == 1 then ws[0]
    else ws[0] + " " + Unwords(ws[1..])
  }

  /** The non-whitespace characters of `s`, in order. */
  function NonSpace(s: string): string {
    if s == [] then [] else (if IsSpace(s[0]) then [] else [s[0]]) + NonSpace(s[1..])
  }

  /** The words concatenated with nothing between them. */
  function Concat(ws: seq<string>): string {
    if ws == [] then [] else ws[0] + Concat(ws[1..])
  }

  /** What a cleaned text looks like: no whitespace at either end, no two
      whitespace characters side by side, and the plain space as the only
      whitespace character. */
  predicate Normalized(r: string) {
    (r == [] || (!IsSpace(r[0]) && !IsSpace(r[|r| - 1])))
    && (forall i :: 0 <= i < |r| && IsSpace(r[i]) ==> r[i] == ' ')
    && (forall i :: 0 <= i < |r| - 1 ==> !IsSpace(r[i]) || !IsSpace(r[i + 1]))
  }

  // ---------------------------------------------------------------------
  // The functions of src/ingest.py
  // ---------------------------------------------------------------------

  /** clean_text: `None` for a falsy text; otherwise the words of the text
      joined by single spaces (which is `""` for a whitespace-only text). */
  function CleanText(t: Option<string>): (r: Option<string>)
    ensures r.None? <==> !Truthy(t)
    ensures r.Some? ==> r.value == Unwords(Words(t.value))
  {
    if !Truthy(t) then None
    else
      var s := t.value;
      CollapseShape(s);
      WordsAreWords(s);
      StripAroundWords(Words(s), Lead(s), Trail(s));
      Some(Strip(Collapse(s)))
  }

  /** translate_text: a falsy text gives `None` without consulting the
      service; otherwise the service's answer, where `None` stands for a call
      that raised (the error is swallowed, never propagated). */
  function TranslateText(translate: string -> Option<string>, t: Option<string>): (r: Option<string>)
    ensures !Truthy(t) ==> r == None
    ensures Truthy(t) ==> r == translate(t.value)
  {
    if Truthy(t) then translate(t.value) else None
  }

  /** merge_columns: `a + ". " + b` when both are truthy, else `a or b`. */
  function MergeColumns(a: Option<string>, b: Option<string>): (r: Option<string>)
    ensures Truthy(r) <==> Truthy(a) || Truthy(b)
    ensures r == None <==> b == None && !Truthy(a)
    ensures Truthy(a) && Truthy(b) ==>
              |r.value| == |a.value| + 2 + |b.value|
              && r.value[..|a.value|] == a.value && r.value[|a.value| + 2..] == b.value
    ensures Truthy(a) && Truthy(b) ==> r == Some(a.value + ". " + b.value)
    ensures !(Truthy(a) && Truthy(b)) ==> r == (if Truthy(a) then a else b)
  {
    if Truthy(a) && Truthy(b) then
      var m := a.value + ". " + b.value;
      assert m[|a.value| + 2..] == b.value;
      Some(m)
    else if Truthy(a) then a
    else b
  }

  /** A raw record from the API: JSON keys mapped to a string or null. */
  type RawRecord = map<string, Option<string>>

  /** `record.get(key)`: `None` for a missing key. */
  function Field(raw: RawRecord, key: string): Option<string> {
    if key in raw then raw[key] else None
  }

  /** The fourteen-field record that is published for each raw record. */
  datatype NormalizedRecord = NormalizedRecord(
    referenceSheet: Option<string>,
    version: Option<string>,
    legalNature: Option<string>,
    productCategory: Option<string>,
    subCategory: Option<string>,
    brandName: Option<string>,
    productModels: Option<string>,
    riskDescription: Option<string>,
    consumerRecommendations: Option<string>,
    compensationMethods: Option<string>,
    additionalInformation: Option<string>,
    dateOfPublication: Option<string>,
    distributors: Option<string>,
    imageUrl: Option<string>)

  /** `translate_text(clean_text(t))`. */
  function Enrich(translate: string -> Option<string>, t: Option<string>): Option<string> {
    TranslateText(translate, CleanText(t))
  }

  /** An optional text that is absent or cleaned. */
  predicate CleanOrNull(t: Option<string>) {
    t.None? || Normalized(t.value)
  }

  /** transform_row: maps a raw record onto the fourteen output fields. Each
      cleaned-only field is its source key cleaned, hence normalised text or
      null; each translated field is its source key cleaned and translated;
      the pass-through fields are the raw values. */
  function TransformRow(translate: string -> Option<string>, raw: RawRecord): (r: NormalizedRecord)
    ensures r.referenceSheet == CleanText(Field(raw, "reference_fiche"))
      && r.brandName == CleanText(Field(raw, "nom_de_la_marque_du_produit"))
      && r.productModels == CleanText(Field(raw, "noms_des_modeles_ou_references"))
      && r.distributors == CleanText(Field(raw, "distributeurs"))
    ensures CleanOrNull(r.referenceSheet) && CleanOrNull(r.brandName)
      && CleanOrNull(r.productModels) && CleanOrNull(r.distributors)
    ensures r.legalNature == TranslateText(translate, CleanText(Field(raw, "nature_juridique_du_rappel")))
      && r.productCategory == TranslateText(translate, CleanText(Field(raw, "categorie_de_produit")))
      && r.subCategory == TranslateText(translate, CleanText(Field(raw, "sous_categorie_de_produit")))
      && r.compensationMethods == TranslateText(translate, CleanText(Field(raw, "modalites_de_compensation")))
      && r.additionalInformation
         == TranslateText(translate, CleanText(Field(raw, "informations_complementaires_publiques")))
    ensures r.riskDescription == MergeColumns(
              Enrich(translate, Field(raw, "risques_encourus_par_le_consommateur")),
              Enrich(translate, Field(raw, "description_complementaire_du_risque")))
      && r.consumerRecommendations == MergeColumns(
              Enrich(translate, Field(raw, "preconisations_sanitaires")),
              Enrich(translate, Field(raw, "conduites_a_tenir_par_le_consommateur")))
    ensures r.version == Field(raw, "ndeg_de_version")
      && r.dateOfPublication == Field(raw, "date_de_publication")
      && r.imageUrl == Field(raw, "liens_vers_les_images")
  {
    CleanNormalized(Field(raw, "reference_fiche"));
    CleanNormalized(Field(raw, "nom_de_la_marque_du_produit"));
    CleanNormalized(Field(raw, "noms_des_modeles_ou_references"));
    CleanNormalized(Field(raw, "distributeurs"));
    NormalizedRecord(
      referenceSheet := CleanText(Field(raw, "reference_fiche")),
      version := Field(raw, "ndeg_de_version"),
      legalNature := Enrich(translate, Field(raw, "nature_juridique_du_rappel")),
      productCategory := Enrich(translate, Field(raw, "categorie_de_produit")),
      subCategory := Enrich(translate, Field(raw, "sous_categorie_de_produit")),
      brandName := CleanText(Field(raw, "nom_de_la_marque_du_produit")),
      productModels := CleanText(Field(raw, "noms_des_modeles_ou_references")),
      riskDescription := MergeColumns(
        Enrich(translate, Field(raw, "risques_encourus_par_le_consommateur")),
        Enrich(translate, Field(raw, "description_complementaire_du_risque"))),
      consumerRecommendations := MergeColumns(
        Enrich(translate, Field(raw, "preconisations_sanitaires")),
        Enrich(translate, Field(raw, "conduites_a_tenir_par_le_consommateur"))),
      compensationMethods := Enrich(translate, Field(raw, "modalites_de_compensation")),
      additionalInformation := Enrich(translate, Field(raw, "informations_complementaires_publiques")),
      dateOfPublication := Field(raw, "date_de_publication"),
      distributors := CleanText(Field(raw, "distributeurs")),
      imageUrl := Field(raw, "liens_vers_les_images"))
  }

  /** A cleaned-only field whose source key is missing or null is `None`. */
  lemma MissingCleanedFieldsAreNull(translate: string -> Option<string>, raw: RawRecord, r: NormalizedRecord)
    requires r == TransformRow(translate, raw)
    ensures Field(raw, "reference_fiche") == None ==> r.referenceSheet == None
    ensures Field(raw, "nom_de_la_marque_du_produit") == None ==> r.brandName == None
    ensures Field(raw, "noms_des_modeles_ou_references") == None ==> r.productModels == None
    ensures Field(raw, "distributeurs") == None ==> r.distributors == None
  {
    assert CleanText(None) == None;
  }

  /** A translated field whose source key is missing or null is `None`,
      whatever the translation service answers. */
  lemma MissingTranslatedFieldsAreNull(translate: string -> Option<string>, raw: RawRecord, r: NormalizedRecord)
    requires r == TransformRow(translate, raw)
    ensures Field(raw, "nature_juridique_du_rappel") == None ==> r.legalNature == None
    ensures Field(raw, "categorie_de_produit") == None ==> r.productCategory == None
    ensures Field(raw, "sous_categorie_de_produit") == None ==> r.subCategory == None
    ensures Field(raw, "modalites_de_compensation") == None ==> r.compensationMethods == None
    ensures Field(raw, "informations_complementaires_publiques") == None ==> r.additionalInformation == None
  {
    assert Enrich(translate, None) == None;
  }

  /** A merged field whose two source keys are both missing or null is `None`. */
  lemma MissingMergedFieldsAreNull(translate: string -> Option<string>, raw: RawRecord, r: NormalizedRecord)
    requires r == TransformRow(translate, raw)
    ensures (Field(raw, "risques_encourus_par_le_consommateur") == None
             && Field(raw, "description_complementaire_du_risque") == None) ==> r.riskDescription == None
    ensures (Field(raw, "preconisations_sanitaires") == None
             && Field(raw, "conduites_a_tenir_par_le_consommateur") == None) ==> r.consumerRecommendations == None
  {
    assert Enrich(translate, None) == None;
    assert MergeColumns(None, None) == None;
  }

  /** The risk description puts the risks to the consumer before the
      complementary description of the risk. */
  lemma RiskDescriptionOrder(translate: string -> Option<string>, raw: RawRecord, x: Option<string>, y: Option<string>)
    requires x == Enrich(translate, Field(raw, "risques_encourus_par_le_consommateur"))
    requires y == Enrich(translate, Field(raw, "description_complementaire_du_risque"))
    ensures Truthy(x) && Truthy(y) ==> TransformRow(translate, raw).riskDescription == Some(x.value + ". " + y.value)
    ensures !(Truthy(x) && Truthy(y)) ==> TransformRow(translate, raw).riskDescription == (if Truthy(x) then x else y)
  {
  }

  /** The consumer recommendations put the health advice before the conduct
      the consumer should follow. */
  lemma RecommendationsOrder(translate: string -> Option<string>, raw: RawRecord, x: Option<string>, y: Option<string>)
    requires x == Enrich(translate, Field(raw, "preconisations_sanitaires"))
    requires y == Enrich(translate, Field(raw, "conduites_a_tenir_par_le_consommateur"))
    ensures Truthy(x) && Truthy(y) ==> TransformRow(translate, raw).consumerRecommendations == Some(x.value + ". " + y.value)
    ensures !(Truthy(x) && Truthy(y)) ==> TransformRow(translate, raw).consumerRecommendations == (if Truthy(x) then x else y)
  {
  }

  /** The keys of the dictionary transform_row returns, in its order. */
  const OutputKeys: seq<string> := [
    "reference_sheet", "version", "legal_nature", "product_category",
    "sub_category", "brand_name", "product_models", "risk_description",
    "consumer_recommendations", "compensation_methods", "additional_information",
    "date_of_publication", "distributors", "image_url"]

  /** The record as the dictionary that is serialised and published: exactly
      the fourteen output keys, each holding its field. */
  function ToMessage(r: NormalizedRecord): (m: map<string, Option<string>>)
    ensures m.Keys == set k | k in OutputKeys
  {
    map[
      "reference_sheet" := r.referenceSheet,
      "version" := r.version,
      "legal_nature" := r.legalNature,
      "product_category" := r.productCategory,
      "sub_category" := r.subCategory,
      "brand_name" := r.brandName,
      "product_models" := r.productModels,
      "risk_description" := r.riskDescription,
      "consumer_recommendations" := r.consumerRecommendations,
      "compensation_methods" := r.compensationMethods,
      "additional_information" := r.additionalInformation,
      "date_of_publication" := r.dateOfPublication,
      "distributors" := r.distributors,
      "image_url" := r.imageUrl]
  }

  // ---------------------------------------------------------------------
  // Proofs about clean_text
  // ---------------------------------------------------------------------

  /** The space `Collapse` leaves in front of the words. */
  function Lead(s: string): string {
    if s != [] && IsSpace(s[0]) then " " else ""
  }

  /** The space `Collapse` leaves after the last word. */
  function Trail(s: string): string {
    if s != [] && IsSpace(s[|s| - 1]) && Words(s) != [] then " " else ""
  }

  /** `Words` yields non-empty, whitespace-free words. */
  lemma {:induction false} WordsAreWords(s: string)
    ensures AllWords(Words(s))
    decreases |s|
  {
    if s == [] {
    } else if IsSpace(s[0]) {
      WordsAreWords(s[1..]);
    } else {
      var w := TakeWord(s);
      WordsAreWords(s[|w|..]);
      assert Words(s) == [w] + Words(s[|w|..]);
    }
  }

  /** A word passes through `Collapse` unchanged. */
  lemma {:induction false} CollapseWord(w: string, t: string)
    requires NoSpace(w)
    ensures Collapse(w + t) == w + Collapse(t)
    decreases |w|
  {
    if w == [] {
      assert w + t == t;
    } else {
      assert (w + t)[0] == w[0] && (w + t)[1..] == w[1..] + t;
      CollapseWord(w[1..], t);
    }
  }

  /** Leading whitespace does not change the words. */
  lemma {:induction false} WordsSkipSpaces(s: string)
    ensures Words(SkipSpaces(s)) == Words(s)
    decreases |s|
  {
    if s != [] && IsSpace(s[0]) {
      WordsSkipSpaces(s[1..]);
    }
  }

  /** A text has no words exactly when it is all whitespace. */
  lemma {:induction false} NoWordsAllSpace(s: string)
    ensures Words(s) == [] <==> forall i :: 0 <= i < |s| ==> IsSpace(s[i])
    decreases |s|
  {
    if s != [] {
      if IsSpace(s[0]) {
        NoWordsAllSpace(s[1..]);
        assert forall i :: 1 <= i < |s| ==> s[i] == s[1..][i - 1];
      }
    }
  }

  /** `Collapse` gives the words joined by single spaces, with one space in
      front when the text starts with whitespace and one at the end when it
      ends with whitespace after a word. */
  lemma {:induction false} CollapseShape(s: string)
    ensures Collapse(s) == Lead(s) + Unwords(Words(s)) + Trail(s)
    decreases |s|, 1
  {
    if s == [] {
    } else if IsSpace(s[0]) {
      CollapseShapeSpace(s);
    } else {
      CollapseShapeWord(s);
    }
  }

  /** `CollapseShape` for a text that starts with whitespace. */
  lemma {:induction false} CollapseShapeSpace(s: string)
    requires s != [] && IsSpace(s[0])
    ensures Collapse(s) == Lead(s) + Unwords(Words(s)) + Trail(s)
    decreases |s|, 0
  {
    var d := SkipSpaces(s[1..]);
    SkipSpacesKeepsShape(s);
    CollapseShape(d);
    CollapseAfterSpace(Collapse(s), Collapse(d), Lead(s), Lead(d), Unwords(Words(s)), Trail(s));
  }

  /** The concatenation step of `CollapseShapeSpace`, stated over plain values. */
  lemma CollapseAfterSpace(cs: string, cd: string, lead: string, leadD: string, u: string, trail: string)
    requires cs == " " + cd && lead == " " && leadD == ""
    requires cd == leadD + u + trail
    ensures cs == lead + u + trail
  {
  }

  /** Dropping the leading whitespace keeps the words and the trailing space. */
  lemma SkipSpacesKeepsShape(s: string)
    requires s != [] && IsSpace(s[0])
    ensures Collapse(s) == " " + Collapse(SkipSpaces(s[1..]))
    ensures Lead(s) == " " && Lead(SkipSpaces(s[1..])) == ""
    ensures Words(SkipSpaces(s[1..])) == Words(s)
    ensures Trail(SkipSpaces(s[1..])) == Trail(s)
  {
    WordsSkipSpaces(s[1..]);
    TrailSkipSpaces(s);
  }

  /** Dropping the leading whitespace keeps the trailing space. */
  lemma TrailSkipSpaces(s: string)
    requires s != [] && IsSpace(s[0])
    requires Words(SkipSpaces(s[1..])) == Words(s)
    ensures Trail(SkipSpaces(s[1..])) == Trail(s)
  {
    var t := s[1..];
    var d := SkipSpaces(t);
    if d == [] {
      assert Words(s) == [];
      assert Trail(d) == "" == Trail(s);
    } else {
      assert d == t[|t| - |d|..];
      assert d[|d| - 1] == t[|t| - 1] == s[|s| - 1];
      var end := IsSpace(s[|s| - 1]) && Words(s) != [];
      assert Trail(d) == (if end then " " else "") == Trail(s);
    }
  }

  /** `CollapseShape` for a text that starts with a word. */
  lemma {:induction false} CollapseShapeWord(s: string)
    requires s != [] && !IsSpace(s[0])
    ensures Collapse(s) == Lead(s) + Unwords(Words(s)) + Trail(s)
    decreases |s|, 0
  {
    var w := TakeWord(s);
    var t := s[|w|..];
    FirstWordShape(s);
    CollapseWord(w, t);
    if t != [] {
      CollapseShape(t);
    }
    CollapseAfterWord(w, t, Words(t), Lead(s), Trail(s), Trail(t), Collapse(t));
  }

  /** How a text that starts with a word splits into that word and the rest. */
  lemma FirstWordShape(s: string)
    requires s != [] && !IsSpace(s[0])
    ensures s == TakeWord(s) + s[|TakeWord(s)|..]
    ensures Words(s) == [TakeWord(s)] + Words(s[|TakeWord(s)|..])
    ensures Lead(s) == ""
    ensures IsWord(TakeWord(s))
    ensures var t := s[|TakeWord(s)|..];
      t == [] || (IsSpace(t[0]) && Lead(t) == " " && s[|s| - 1] == t[|t| - 1])
    ensures s[|s| - 1] == TakeWord(s)[|TakeWord(s)| - 1] || |TakeWord(s)| < |s|
    ensures var t := s[|TakeWord(s)|..];
      Trail(s) == (if t == [] then "" else if Words(t) == [] then " " else Trail(t))
  {
    var w := TakeWord(s);
    var t := s[|w|..];
    assert s == w + t;
    FirstWordEnd(s, w, t);
  }

  /** The last character of `s` is the last of its first word or of the
      rest; a rest without words ends in whitespace. */
  lemma FirstWordEnd(s: string, w: string, t: string)
    requires s != [] && w != [] && s == w + t
    ensures t == [] ==> s[|s| - 1] == w[|w| - 1]
    ensures t != [] ==> s[|s| - 1] == t[|t| - 1]
    ensures t != [] && Words(t) == [] ==> IsSpace(t[|t| - 1])
  {
    if t == [] {
      assert s == w;
    } else {
      assert s[|s| - 1] == (w + t)[|w| + |t| - 1] == t[|t| - 1];
      if Words(t) == [] {
        NoWordsAllSpace(t);
      }
    }
  }

  /** The concatenation step of `CollapseShapeWord`, stated over plain values. */
  lemma CollapseAfterWord(w: string, t: string, ts: seq<string>, lead: string, trail: string, trailT: string, ct: string)
    requires IsWord(w) && lead == ""
    requires t == [] ==> ct == [] && ts == [] && trail == ""
    requires t != [] ==> ct == " " + Unwords(ts) + trailT
    requires t != [] ==> trail == (if ts == [] then " " else trailT)
    requires t != [] && ts == [] ==> trailT == ""
    ensures w + ct == lead + Unwords([w] + ts) + trail
  {
    assert ([w] + ts)[0] == w && ([w] + ts)[1..] == ts;
    if ts == [] {
      assert [w] + ts == [w];
    }
  }

  /** Joined words are empty exactly when there are none, and otherwise start
      and end with a non-whitespace character. */
  lemma {:induction false} UnwordsEnds(ws: seq<string>)
    requires AllWords(ws)
    ensures Unwords(ws) == [] <==> ws == []
    ensures ws != [] ==> !IsSpace(Unwords(ws)[0]) && !IsSpace(Unwords(ws)[|Unwords(ws)| - 1])
  {
    if |ws| > 1 {
      UnwordsEnds(ws[1..]);
      assert IsWord(ws[0]);
      var u := Unwords(ws[1..]);
      assert Unwords(ws) == ws[0] + " " + u;
      assert Unwords(ws)[0] == ws[0][0];
      assert Unwords(ws)[|Unwords(ws)| - 1] == u[|u| - 1];
    } else if |ws| == 1 {
      assert IsWord(ws[0]);
    }
  }

  /** `strip()` removes exactly the spaces `Collapse` left around the words. */
  lemma StripAroundWords(ws: seq<string>, lead: string, trail: string)
    requires AllWords(ws)
    requires lead == "" || lead == " "
    requires trail == "" || trail == " "
    ensures Strip(lead + Unwords(ws) + trail) == Unwords(ws)
  {
    UnwordsEnds(ws);
    StripFramed(lead, Unwords(ws), trail);
  }

  /** `strip()` of a text framed by at most one space on each side. */
  lemma StripFramed(lead: string, u: string, trail: string)
    requires lead == "" || lead == " "
    requires trail == "" || trail == " "
    requires u == [] || (!IsSpace(u[0]) && !IsSpace(u[|u| - 1]))
    ensures Strip(lead + u + trail) == u
  {
    if u == [] {
      StripBlank(lead + u + trail);
    } else {
      StripFramedWord(lead, u, trail);
    }
  }

  /** `StripFramed` for a non-empty `u`. */
  lemma StripFramedWord(lead: string, u: string, trail: string)
    requires lead == "" || lead == " "
    requires trail == "" || trail == " "
    requires u != [] && !IsSpace(u[0]) && !IsSpace(u[|u| - 1])
    ensures Strip(lead + u + trail) == u
  {
    var rest := u + trail;
    assert rest[0] == u[0];
    assert lead + u + trail == lead + rest;
    SkipLeadingSpace(lead, rest);
    SkipTrailingSpace(u, trail);
  }

  /** A whitespace-only text strips to nothing. */
  lemma StripBlank(x: string)
    requires forall i :: 0 <= i < |x| ==> IsSpace(x[i])
    ensures Strip(x) == []
  {
  }

  /** One leading space in front of a non-whitespace character is stripped. */
  lemma SkipLeadingSpace(lead: string, y: string)
    requires lead == "" || lead == " "
    requires y != [] && !IsSpace(y[0])
    ensures SkipSpaces(lead + y) == y
  {
    if lead == " " {
      assert (lead + y)[0] == ' ' && (lead + y)[1..] == y;
    } else {
      assert lead + y == y;
    }
  }

  /** One trailing space after a non-whitespace character is stripped. */
  lemma SkipTrailingSpace(u: string, trail: string)
    requires trail == "" || trail == " "
    requires u != [] && !IsSpace(u[|u| - 1])
    ensures SkipTrailingSpaces(u + trail) == u
  {
    if trail == " " {
      assert (u + trail)[|u + trail| - 1] == ' ' && (u + trail)[..|u|] == u;
    } else {
      assert u + trail == u;
    }
  }

  /** Joined words satisfy `Normalized`. */
  lemma {:induction false} UnwordsNormalized(ws: seq<string>)
    requires AllWords(ws)
    ensures Normalized(Unwords(ws))
  {
    UnwordsEnds(ws);
    if |ws| == 1 {
      assert IsWord(ws[0]);
    } else if |ws| > 1 {
      var w := ws[0];
      assert IsWord(w);
      var u := Unwords(ws[1..]);
      UnwordsNormalized(ws[1..]);
      UnwordsEnds(ws[1..]);
      var r := w + " " + u;
      assert r == Unwords(ws);
      assert forall i :: 0 <= i < |w| ==> r[i] == w[i];
      assert r[|w|] == ' ';
      assert forall i :: |w| < i < |r| ==> r[i] == u[i - |w| - 1];
    }
  }

  /** A word is taken whole when it ends the text or whitespace follows it. */
  lemma {:induction false} TakeWordOf(w: string, t: string)
    requires NoSpace(w)
    requires t == [] || IsSpace(t[0])
    ensures TakeWord(w + t) == w
    decreases |w|
  {
    if w == [] {
      assert w + t == t;
    } else {
      assert (w + t)[0] == w[0] && (w + t)[1..] == w[1..] + t;
      TakeWordOf(w[1..], t);
    }
  }

  /** Splitting joined words gives the words back. */
  lemma {:induction false} WordsOfUnwords(ws: seq<string>)
    requires AllWords(ws)
    ensures Words(Unwords(ws)) == ws
  {
    if |ws| == 1 {
      assert IsWord(ws[0]);
      WordsOfWord(ws[0]);
    } else if |ws| > 1 {
      assert IsWord(ws[0]);
      WordsOfUnwords(ws[1..]);
      WordThenSpace(ws[0], Unwords(ws[1..]));
      assert ws == [ws[0]] + ws[1..];
    }
  }

  /** A single word splits into itself. */
  lemma WordsOfWord(w: string)
    requires IsWord(w)
    ensures Words(w) == [w]
  {
    TakeWordOf(w, []);
    assert w + [] == w;
    assert w[|w|..] == [];
  }

  /** A word followed by a space splits off as the first word. */
  lemma WordThenSpace(w: string, u: string)
    requires IsWord(w)
    ensures Words(w + " " + u) == [w] + Words(u)
  {
    var t := " " + u;
    TakeWordOf(w, t);
    assert w + " " + u == w + t;
    assert (w + t)[0] == w[0];
    assert (w + t)[|w|..] == t;
    assert t[1..] == u;
  }

  /** `NonSpace` distributes over concatenation. */
  lemma {:induction false} NonSpaceAppend(a: string, b: string)
    ensures NonSpace(a + b) == NonSpace(a) + NonSpace(b)
    decreases |a|
  {
    if a == [] {
      assert a + b == b;
    } else {
      assert (a + b)[0] == a[0] && (a + b)[1..] == a[1..] + b;
      NonSpaceAppend(a[1..], b);
    }
  }

  /** A whitespace-free text is its own `NonSpace`. */
  lemma {:induction false} NonSpaceOfWord(w: string)
    requires NoSpace(w)
    ensures NonSpace(w) == w
    decreases |w|
  {
    if w != [] {
      NonSpaceOfWord(w[1..]);
    }
  }

  /** The words of a text hold exactly its non-whitespace characters, in order. */
  lemma {:induction false} WordsKeepNonSpace(s: string)
    ensures Concat(Words(s)) == NonSpace(s)
    decreases |s|
  {
    if s != [] {
      if IsSpace(s[0]) {
        WordsKeepNonSpace(s[1..]);
      } else {
        var w := TakeWord(s);
        var t := s[|w|..];
        assert s == w + t;
        assert Words(s) == [w] + Words(t);
        WordsKeepNonSpace(t);
        NonSpaceAppend(w, t);
        NonSpaceOfWord(w);
      }
    }
  }

  /** Joining words adds only whitespace. */
  lemma {:induction false} UnwordsKeepNonSpace(ws: seq<string>)
    requires AllWords(ws)
    ensures NonSpace(Unwords(ws)) == Concat(ws)
  {
    if |ws| == 1 {
      assert IsWord(ws[0]);
      NonSpaceOfWord(ws[0]);
      assert Concat(ws) == ws[0] + Concat([]);
    } else if |ws| > 1 {
      assert IsWord(ws[0]);
      UnwordsKeepNonSpace(ws[1..]);
      NonSpaceOfWord(ws[0]);
      NonSpaceAppend(ws[0], " " + Unwords(ws[1..]));
      NonSpaceAppend(" ", Unwords(ws[1..]));
      assert Unwords(ws) == ws[0] + (" " + Unwords(ws[1..]));
    }
  }

  // ---------------------------------------------------------------------
  // What clean_text promises
  // ---------------------------------------------------------------------

  /** A cleaned text has no leading, trailing or doubled whitespace, and every
      whitespace character in it is a plain space. */
  lemma CleanNormalized(t: Option<string>)
    ensures CleanText(t).Some? ==> Normalized(CleanText(t).value)
  {
    if Truthy(t) {
      WordsAreWords(t.value);
      UnwordsNormalized(Words(t.value));
    }
  }

  /** Cleaning keeps every non-whitespace character, in order, and drops no other. */
  lemma CleanKeepsNonSpace(s: string)
    requires s != ""
    ensures NonSpace(CleanText(Some(s)).value) == NonSpace(s)
  {
    WordsAreWords(s);
    UnwordsKeepNonSpace(Words(s));
    WordsKeepNonSpace(s);
  }

  /** Cleaning keeps the words: each whitespace run between two words becomes
      one space, and the words themselves are untouched. */
  lemma CleanKeepsWords(s: string)
    requires s != ""
    ensures Words(CleanText(Some(s)).value) == Words(s)
  {
    WordsAreWords(s);
    WordsOfUnwords(Words(s));
  }

  /** Cleaning twice is cleaning once, provided the first result is not empty. */
  lemma CleanIdempotent(t: Option<string>)
    requires CleanText(t).Some? && CleanText(t).value != ""
    ensures CleanText(CleanText(t)) == CleanText(t)
  {
    CleanKeepsWords(t.value);
  }

  /** A whitespace-only text cleans to `""`, which a second clean turns into
      `None`: clean_text is not idempotent on such input. */
  lemma CleanBlank(s: string)
    requires s != "" && forall i :: 0 <= i < |s| ==> IsSpace(s[i])
    ensures CleanText(Some(s)) == Some("")
    ensures CleanText(CleanText(Some(s))) == None
  {
    NoWordsAllSpace(s);
  }

  /** clean_text(None) and clean_text("") are both `None`. */
  lemma CleanFalsy()
    ensures CleanText(None) == None && CleanText(Some("")) == None
  {
  }

  // ---------------------------------------------------------------------
  // What translate_text and merge_columns promise
  // ---------------------------------------------------------------------

  /** A falsy text never reaches the service: the result is `None` whatever
      the service would answer. */
  lemma TranslateSkipsFalsy(translate1: string -> Option<string>, translate2: string -> Option<string>, t: Option<string>)
    requires !Truthy(t)
    ensures TranslateText(translate1, t) == TranslateText(translate2, t) == None
  {
  }

  /** The cases of merge_columns, including that it is not commutative. */
  lemma MergeCases()
    ensures MergeColumns(None, None) == None
    ensures MergeColumns(Some("x"), None) == Some("x")
    ensures MergeColumns(Some(""), None) == None
    ensures MergeColumns(None, Some("")) == Some("")
    ensures MergeColumns(Some("x"), Some("y")) == Some("x. y")
    ensures MergeColumns(Some("x"), Some("y")) != MergeColumns(Some("y"), Some("x"))
  {
    assert "x" + ". " + "y" == "x. y";
    assert MergeColumns(Some("x"), Some("y")).value[0] == 'x';
    assert MergeColumns(Some("y"), Some("x")).value[0] == 'y';
  }
}
