/** The aspect-name normaliser of `normalize_aspect_name`: trim, look the
    lower-cased name up in a fixed synonym table, and fall back to the trimmed
    name, case kept. */
module Normalizer {
  import opened Text

  /** Lower-cased spelling variants and their canonical aspect names. "style" is
      the one semantic remap: it is read as "Color/Aesthetics". */
  const Synonyms: map<string, string> := map[
    "material/ quality" := "Material/Quality",
    "material/quality" := "Material/Quality",
    "sizing/fit" := "Sizing/Fit",
    "fit/sizing" := "Sizing/Fit",
    "comfort" := "Comfort",
    "style" := "Color/Aesthetics",
    "color/aesthetics" := "Color/Aesthetics",
    "durability" := "Durability",
    "shipping/packaging" := "Shipping/Packaging",
    "instruction/ ux" := "Instructions/UX",
    "instructions/ux" := "Instructions/UX",
    "value/price" := "Value/Price"
  ]

  /** The canonical name of an aspect label, or the trimmed label itself when
      the table has no entry for it. */
  function NormalizeAspect(raw: string): string
  {
    var aspect := Trim(raw);
    var key := Lower(aspect);
    if key in Synonyms then Synonyms[key] else aspect
  }

  /** The normaliser returns either a canonical name from the table or the
      trimmed label. */
  lemma NormalizeResult(raw: string)
    ensures NormalizeAspect(raw) in Synonyms.Values || NormalizeAspect(raw) == Trim(raw)
    ensures Lower(Trim(raw)) in Synonyms ==> NormalizeAspect(raw) == Synonyms[Lower(Trim(raw))]
  {
  }

  /** A name the normaliser leaves alone: non-empty, already trimmed, and the
      table maps its lower-cased form back to it. */
  predicate IsFixedName(v: string)
  {
    v != [] && Trim(v) == v && Lower(v) in Synonyms && Synonyms[Lower(v)] == v
  }

  // The facts about the eight canonical names are computed in small groups,
  // which keeps each proof cheap.

  lemma CanonicalNamesTrimmed1()
    ensures Trim("Material/Quality") == "Material/Quality"
    ensures Trim("Sizing/Fit") == "Sizing/Fit"
    ensures Trim("Comfort") == "Comfort"
    ensures Trim("Color/Aesthetics") == "Color/Aesthetics"
  {
    StripFixed("Material/Quality", Whitespace);
    StripFixed("Sizing/Fit", Whitespace);
    StripFixed("Comfort", Whitespace);
    StripFixed("Color/Aesthetics", Whitespace);
  }

  lemma CanonicalNamesTrimmed2()
    ensures Trim("Durability") == "Durability"
    ensures Trim("Shipping/Packaging") == "Shipping/Packaging"
    ensures Trim("Instructions/UX") == "Instructions/UX"
    ensures Trim("Value/Price") == "Value/Price"
  {
    StripFixed("Durability", Whitespace);
    StripFixed("Shipping/Packaging", Whitespace);
    StripFixed("Instructions/UX", Whitespace);
    StripFixed("Value/Price", Whitespace);
  }

  lemma CanonicalNamesLowered1()
    ensures Lower("Material/Quality") == "material/quality"
    ensures Lower("Sizing/Fit") == "sizing/fit"
    ensures Lower("Comfort") == "comfort"
    ensures Lower("Color/Aesthetics") == "color/aesthetics"
  {
  }

  lemma CanonicalNamesLowered2()
    ensures Lower("Durability") == "durability"
    ensures Lower("Shipping/Packaging") == "shipping/packaging"
    ensures Lower("Instructions/UX") == "instructions/ux"
    ensures Lower("Value/Price") == "value/price"
  {
  }

  lemma CanonicalNamesLookedUp()
    ensures "material/quality" in Synonyms && Synonyms["material/quality"] == "Material/Quality"
    ensures "sizing/fit" in Synonyms && Synonyms["sizing/fit"] == "Sizing/Fit"
    ensures "comfort" in Synonyms && Synonyms["comfort"] == "Comfort"
    ensures "color/aesthetics" in Synonyms && Synonyms["color/aesthetics"] == "Color/Aesthetics"
    ensures "durability" in Synonyms && Synonyms["durability"] == "Durability"
    ensures "shipping/packaging" in Synonyms && Synonyms["shipping/packaging"] == "Shipping/Packaging"
    ensures "instructions/ux" in Synonyms && Synonyms["instructions/ux"] == "Instructions/UX"
    ensures "value/price" in Synonyms && Synonyms["value/price"] == "Value/Price"
  {
  }

  /** Every name in the table's range is a fixed point of the lookup. */
  lemma CanonicalNamesAreFixed()
    ensures forall v :: v in Synonyms.Values ==> IsFixedName(v)
  {
    CanonicalNamesTrimmed1();
    CanonicalNamesTrimmed2();
    CanonicalNamesLowered1();
    CanonicalNamesLowered2();
    CanonicalNamesLookedUp();
    forall v | v in Synonyms.Values ensures IsFixedName(v) {
      var k :| k in Synonyms && Synonyms[k] == v;
      assert k in Synonyms.Keys;
    }
  }

  /** Normalising twice gives what normalising once gives, for every label. */
  lemma NormalizeIdempotent(raw: string)
    ensures NormalizeAspect(NormalizeAspect(raw)) == NormalizeAspect(raw)
  {
    var r := NormalizeAspect(raw);
    if r in Synonyms.Values {
      CanonicalNamesAreFixed();
    } else {
      TrimIdempotent(raw);
    }
  }

  /** The lookup ignores case and surrounding white space: two labels with the
      same trimmed, lower-cased form and a table entry normalise alike. */
  lemma NormalizeCaseInsensitive(a: string, b: string)
    requires Lower(Trim(a)) == Lower(Trim(b))
    requires Lower(Trim(a)) in Synonyms
    ensures NormalizeAspect(a) == NormalizeAspect(b) == Synonyms[Lower(Trim(a))]
  {
  }

  /** A label without a table entry comes back trimmed, its case unchanged. */
  lemma NormalizeUnmapped(raw: string)
    requires Lower(Trim(raw)) !in Synonyms
    ensures NormalizeAspect(raw) == Trim(raw)
  {
  }

  /** Normalising yields the empty label exactly when the label is blank. */
  lemma NormalizeEmpty(raw: string)
    ensures NormalizeAspect(raw) == "" <==> Trim(raw) == ""
  {
    var t := Trim(raw);
    if Lower(t) in Synonyms {
      CanonicalNamesAreFixed();
      assert "" !in Synonyms;
      assert Synonyms[Lower(t)] in Synonyms.Values;
    }
  }

  lemma SpacingVariantTrimmed()
    ensures Trim("Material/ Quality") == "Material/ Quality"
    ensures Trim("material/quality") == "material/quality"
  {
    StripFixed("Material/ Quality", Whitespace);
    StripFixed("material/quality", Whitespace);
  }

  lemma SpacingVariantLowered()
    ensures Lower("Material/ Quality") == "material/ quality"
    ensures Lower("material/quality") == "material/quality"
  {
  }

  /** A spacing variant and the plain spelling name the same aspect. */
  lemma NormalizeSpacingVariant()
    ensures NormalizeAspect("Material/ Quality") == NormalizeAspect("material/quality") == "Material/Quality"
  {
    SpacingVariantTrimmed();
    SpacingVariantLowered();
  }

  lemma UnknownNameFacts()
    ensures Trim("  Odor ") == "Odor"
    ensures Lower("Odor") == "odor"
  {
    assert SkipLeading("  Odor ", Whitespace, 0) == 2;
    assert SkipTrailing("  Odor ", Whitespace, 7) == 6;
  }

  /** A name outside the table keeps its case and loses only its padding. */
  lemma NormalizeUnknownName()
    ensures NormalizeAspect("  Odor ") == "Odor"
  {
    UnknownNameFacts();
  }
}
