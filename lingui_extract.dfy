/**
 * The `extract` action of dist/lingui-multi.js, without its file and
 * process handling: the freshly collected catalog has every translation
 * cleared, then for each locale directory with a `messages.json` the
 * persisted catalog is laid over it (`Object.assign`) and the minimal
 * catalog (key -> translation) is derived from the result.
 */
module LinguiExtract {
  import opened Wrappers
  import opened Catalogs
  import Text

  // ---------------------------------------------------------------------------
  // Clearing translations

  /** The collected catalog with every translation set to `''`. */
  function Prefilled(c: Catalog): (r: Catalog)
    ensures r.Keys == c.Keys
    ensures forall k :: k in r ==> r[k].translation == "" && r[k].origin == c[k].origin
  {
    map k | k in c :: c[k].(translation := "")
  }

  /** The `for (key in linguiCatalog)` loop that clears the translations. */
  method Prefill(linguiCatalog: Catalog) returns (r: Catalog)
    ensures r == Prefilled(linguiCatalog)
  {
    r := linguiCatalog;
    var remaining := linguiCatalog.Keys;
    while remaining != {}
      invariant remaining <= linguiCatalog.Keys && r.Keys == linguiCatalog.Keys
      invariant forall k :: k in r ==> r[k] == if k in remaining then linguiCatalog[k] else linguiCatalog[k].(translation := "")
      decreases remaining
    {
      var key :| key in remaining;
      r := r[key := r[key].(translation := "")];
      remaining := remaining - {key};
    }
  }

  // ---------------------------------------------------------------------------
  // Object.assign

  /** `Object.assign(target, source)`: every key of both; `source`'s whole entry wins on a shared key. */
  function Overlay(target: Catalog, source: Catalog): (r: Catalog)
    ensures r.Keys == target.Keys + source.Keys
  {
    map k | k in target.Keys + source.Keys :: if k in source then source[k] else target[k]
  }

  /** Laying the same catalog over twice changes nothing the second time. */
  lemma OverlayIdempotent(target: Catalog, source: Catalog)
    ensures Overlay(Overlay(target, source), source) == Overlay(target, source)
  {
  }

  /** Successive overlays compose: laying `p` then `q` is laying `q` over `p` at once. */
  lemma OverlayAssociative(t: Catalog, p: Catalog, q: Catalog)
    ensures Overlay(Overlay(t, p), q) == Overlay(t, Overlay(p, q))
  {
    var l, r := Overlay(Overlay(t, p), q), Overlay(t, Overlay(p, q));
    assert l.Keys == r.Keys;
    forall k | k in l
      ensures l[k] == r[k]
    {
    }
  }

  /** `Object.assign(target, source)` as the `for` loop over `source`'s keys it performs. */
  method Assign(target: Catalog, source: Catalog) returns (r: Catalog)
    ensures r == Overlay(target, source)
  {
    r := target;
    var remaining := source.Keys;
    while remaining != {}
      invariant remaining <= source.Keys
      invariant r.Keys == target.Keys + (source.Keys - remaining)
      invariant forall k :: k in r ==> r[k] == if k in source && k !in remaining then source[k] else target[k]
      decreases remaining
    {
      var key :| key in remaining;
      r := r[key := source[key]];
      remaining := remaining - {key};
    }
  }

  // ---------------------------------------------------------------------------
  // The minimal catalog

  /** `minimal.messages.json`: the complex catalog's keys, each with its translation. */
  function MinimalOf(c: Catalog): (r: Minimal)
    ensures r.Keys == c.Keys
  {
    map k | k in c :: c[k].translation
  }

  /** The `for (key in complexCatalog)` loop that builds the minimal catalog. */
  method DeriveMinimal(complexCatalog: Catalog) returns (minimalCatalog: Minimal)
    ensures minimalCatalog == MinimalOf(complexCatalog)
  {
    minimalCatalog := map[];
    var remaining := complexCatalog.Keys;
    while remaining != {}
      invariant remaining <= complexCatalog.Keys
      invariant minimalCatalog.Keys == complexCatalog.Keys - remaining
      invariant forall k :: k in minimalCatalog ==> minimalCatalog[k] == complexCatalog[k].translation
      decreases remaining
    {
      var key :| key in remaining;
      minimalCatalog := minimalCatalog[key := complexCatalog[key].translation];
      remaining := remaining - {key};
    }
  }

  /** A freshly collected catalog has an empty translation for every key. */
  lemma PrefilledMinimalIsEmpty(c: Catalog)
    ensures forall k :: k in MinimalOf(Prefilled(c)) ==> MinimalOf(Prefilled(c))[k] == ""
  {
  }

  // ---------------------------------------------------------------------------
  // One locale

  /** A locale's new complex catalog: the collected catalog, cleared, with the locale's persisted catalog laid over it. */
  function LocaleCatalog(collected: Catalog, persisted: Catalog): Catalog {
    Overlay(Prefilled(collected), persisted)
  }

  /**
   * The new minimal catalog keeps every persisted translation, gives `''` to
   * keys only the collected extraction has, and has no other keys.
   */
  lemma ExtractedMinimal(collected: Catalog, persisted: Catalog, k: string)
    ensures k in MinimalOf(LocaleCatalog(collected, persisted)) <==> k in collected || k in persisted
    ensures k in persisted ==> MinimalOf(LocaleCatalog(collected, persisted))[k] == persisted[k].translation
    ensures k in collected && k !in persisted ==> MinimalOf(LocaleCatalog(collected, persisted))[k] == ""
  {
  }

  /** A key the source no longer contains keeps its persisted entry unchanged. */
  lemma PersistedKeysKept(collected: Catalog, persisted: Catalog, k: string)
    requires k in persisted
    ensures k in LocaleCatalog(collected, persisted) && LocaleCatalog(collected, persisted)[k] == persisted[k]
  {
  }

  // ---------------------------------------------------------------------------
  // All locales

  /** What the action writes for one locale: `messages.json` and `minimal.messages.json`. */
  datatype LocaleOutput = LocaleOutput(locale: string, complex: Catalog, minimal: Minimal)

  /** One output per participating locale, in directory order, each built from the collected catalog alone. */
  function Extracted(collected: Catalog, locales: seq<LocaleDir>): seq<LocaleOutput> {
    if locales == [] then []
    else
      var loc := locales[0];
      (if Participates(loc)
       then [LocaleOutput(loc.name, LocaleCatalog(collected, loc.messages.value), MinimalOf(LocaleCatalog(collected, loc.messages.value)))]
       else [])
      + Extracted(collected, locales[1..])
  }

  /**
   * The action as written: `Object.assign(linguiCatalog, …)` updates the one
   * shared catalog, so each locale starts from the catalog the previous
   * participating locale left behind.
   */
  function ExtractedAsWritten(linguiCatalog: Catalog, locales: seq<LocaleDir>): seq<LocaleOutput>
    decreases locales
  {
    if locales == [] then []
    else
      var loc := locales[0];
      if Participates(loc) then
        var complexCatalog := Overlay(linguiCatalog, loc.messages.value);
        [LocaleOutput(loc.name, complexCatalog, MinimalOf(complexCatalog))]
        + ExtractedAsWritten(complexCatalog, locales[1..])
      else ExtractedAsWritten(linguiCatalog, locales[1..])
  }

  /** With a single locale the written code and the per-locale reading agree. */
  lemma AsWrittenAgreesOnOneLocale(collected: Catalog, loc: LocaleDir)
    ensures ExtractedAsWritten(Prefilled(collected), [loc]) == Extracted(collected, [loc])
  {
  }

  /**
   * With two locales the second inherits the first one's translations: a
   * French translation persisted for `fr` lands in `ro`'s catalog, although
   * `ro` has persisted nothing and the sources contain no messages.
   */
  lemma AsWrittenLeaksBetweenLocales()
    ensures var fr := LocaleDir("fr", true, Some(map["Hello" := Entry("Bonjour", [])]), None);
            var ro := LocaleDir("ro", true, Some(map[]), None);
            var asWritten := ExtractedAsWritten(Prefilled(map[]), [fr, ro]);
            var intended := Extracted(map[], [fr, ro]);
            |asWritten| == 2 && asWritten[1].minimal == map["Hello" := "Bonjour"]
            && |intended| == 2 && intended[1].minimal == map[]
  {
    var fr := LocaleDir("fr", true, Some(map["Hello" := Entry("Bonjour", [])]), None);
    var ro := LocaleDir("ro", true, Some(map[]), None);
    var c := Overlay(Prefilled(map[]), fr.messages.value);
    assert c == map["Hello" := Entry("Bonjour", [])];
    assert Overlay(c, map[]) == c;
    assert [fr, ro][1..] == [ro];
    assert MinimalOf(c) == map["Hello" := "Bonjour"];
    var second := [LocaleOutput("ro", c, MinimalOf(c))];
    assert ExtractedAsWritten(c, [ro]) == second + ExtractedAsWritten(c, []);
    assert ExtractedAsWritten(Prefilled(map[]), [fr, ro]) == [LocaleOutput("fr", c, MinimalOf(c))] + second;
    var empty := LocaleCatalog(map[], map[]);
    assert empty == map[];
    assert Extracted(map[], [ro]) == [LocaleOutput("ro", empty, MinimalOf(empty))] + Extracted(map[], []);
    assert Extracted(map[], [fr, ro]) == [LocaleOutput("fr", c, MinimalOf(c))] + Extracted(map[], [ro]);
  }

  /** The `locales.forEach` of the action, each locale overlaying its own copy of the cleared catalog. */
  method ExtractLocales(linguiCatalog: Catalog, locales: seq<LocaleDir>) returns (outputs: seq<LocaleOutput>)
    ensures outputs == Extracted(linguiCatalog, locales)
  {
    var prefilled := Prefill(linguiCatalog);
    outputs := [];
    var i := 0;
    assert locales[0..] == locales;
    while i < |locales|
      invariant 0 <= i <= |locales|
      invariant Extracted(linguiCatalog, locales) == outputs + Extracted(linguiCatalog, locales[i..])
    {
      var locale := locales[i];
      assert locales[i..][0] == locale && locales[i..][1..] == locales[i + 1..];
      if locale.name == "_build" || !locale.isDirectory || locale.messages.None? {
        // skipped, as the three early returns do
        assert Extracted(linguiCatalog, locales[i..]) == [] + Extracted(linguiCatalog, locales[i + 1..]);
      } else {
        var complexCatalog := Assign(prefilled, locale.messages.value);
        var minimalCatalog := DeriveMinimal(complexCatalog);
        Text.ConcatAssociative(outputs, [LocaleOutput(locale.name, complexCatalog, minimalCatalog)], Extracted(linguiCatalog, locales[i + 1..]));
        outputs := outputs + [LocaleOutput(locale.name, complexCatalog, minimalCatalog)];
      }
      i := i + 1;
    }
    assert locales[|locales|..] == [];
    assert outputs + [] == outputs;
  }

  /**
   * The `locales.forEach` as written: `Object.assign` updates the one shared
   * `linguiCatalog`, so every locale's catalog is built on the previous one.
   */
  method ExtractLocalesAsWritten(collected: Catalog, locales: seq<LocaleDir>) returns (outputs: seq<LocaleOutput>)
    ensures outputs == ExtractedAsWritten(Prefilled(collected), locales)
  {
    var linguiCatalog := Prefill(collected);
    outputs := [];
    var i := 0;
    assert locales[0..] == locales;
    while i < |locales|
      invariant 0 <= i <= |locales|
      invariant ExtractedAsWritten(Prefilled(collected), locales) == outputs + ExtractedAsWritten(linguiCatalog, locales[i..])
    {
      var locale := locales[i];
      assert locales[i..][0] == locale && locales[i..][1..] == locales[i + 1..];
      if locale.name == "_build" || !locale.isDirectory || locale.messages.None? {
        // skipped, as the three early returns do
      } else {
        var before := linguiCatalog;
        linguiCatalog := Assign(linguiCatalog, locale.messages.value);
        var minimalCatalog := DeriveMinimal(linguiCatalog);
        Text.ConcatAssociative(outputs, [LocaleOutput(locale.name, linguiCatalog, minimalCatalog)], ExtractedAsWritten(linguiCatalog, locales[i + 1..]));
        outputs := outputs + [LocaleOutput(locale.name, linguiCatalog, minimalCatalog)];
      }
      i := i + 1;
    }
    assert locales[|locales|..] == [];
    assert outputs + [] == outputs;
  }

  /** The names of the participating locales, in directory order. */
  function ParticipatingNames(locales: seq<LocaleDir>): seq<string> {
    if locales == [] then []
    else (if Participates(locales[0]) then [locales[0].name] else []) + ParticipatingNames(locales[1..])
  }

  /** The locale each output is written for, in order. */
  function OutputNames(outputs: seq<LocaleOutput>): seq<string> {
    if outputs == [] then [] else [outputs[0].locale] + OutputNames(outputs[1..])
  }

  lemma {:induction false} OutputNamesAppend(a: seq<LocaleOutput>, b: seq<LocaleOutput>)
    ensures OutputNames(a + b) == OutputNames(a) + OutputNames(b)
  {
    if a == [] {
      assert a + b == b;
    } else {
      assert (a + b)[0] == a[0] && (a + b)[1..] == a[1..] + b;
      OutputNamesAppend(a[1..], b);
      Text.ConcatAssociative([a[0].locale], OutputNames(a[1..]), OutputNames(b));
    }
  }

  /** Exactly one output per participating locale, in directory order. */
  lemma {:induction false} ExtractedNames(collected: Catalog, locales: seq<LocaleDir>)
    ensures OutputNames(Extracted(collected, locales)) == ParticipatingNames(locales)
  {
    if locales != [] {
      var loc := locales[0];
      ExtractedNames(collected, locales[1..]);
      var head := if Participates(loc)
        then [LocaleOutput(loc.name, LocaleCatalog(collected, loc.messages.value), MinimalOf(LocaleCatalog(collected, loc.messages.value)))]
        else [];
      OutputNamesAppend(head, Extracted(collected, locales[1..]));
      assert OutputNames(head) == if Participates(loc) then [loc.name] else [];
    }
  }

  /**
   * Only participating locales produce output, at most one each, and every
   * minimal catalog mirrors its complex one.
   */
  lemma {:induction false} ExtractedShape(collected: Catalog, locales: seq<LocaleDir>)
    ensures |Extracted(collected, locales)| <= |locales|
    ensures forall o :: o in Extracted(collected, locales) ==>
              (exists i :: 0 <= i < |locales| && Participates(locales[i]) && locales[i].name == o.locale)
              && o.minimal == MinimalOf(o.complex)
  {
    if locales != [] {
      ExtractedShape(collected, locales[1..]);
      forall o | o in Extracted(collected, locales)
        ensures exists i :: 0 <= i < |locales| && Participates(locales[i]) && locales[i].name == o.locale
      {
        if o !in Extracted(collected, locales[1..]) {
          assert Participates(locales[0]) && locales[0].name == o.locale;
        } else {
          var i :| 0 <= i < |locales[1..]| && Participates(locales[1..][i]) && locales[1..][i].name == o.locale;
          assert locales[i + 1] == locales[1..][i];
        }
      }
    }
  }
}
