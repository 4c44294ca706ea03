/**
 * The `compile` action of dist/lingui-multi.js, without its file and
 * process handling. For every bundle of the `lingui-multi` configuration,
 * plus the `__replacement` bundle that stands in for `lingui compile`, the
 * action composes the bundle's ignore list, and for every locale directory
 * with a `messages.json`:
 *  - screens the keys: a key is kept when one of its origins is not ignored;
 *  - checks that every locale of the bundle keeps the same number of keys;
 *  - in strict mode, refuses a non-source locale whose minimal catalog has
 *    an empty translation;
 *  - writes the minimal catalog restricted to the screened keys.
 * `process.exit(1)` and uncaught exceptions end the whole run; the files
 * written before that remain, so a run is the list of files written plus
 * the error that stopped it, if any.
 */
module LinguiCompile {
  import opened Wrappers
  import opened Catalogs
  import OrderedMap

  /** The `lingui` section of package.json, as far as the action reads it. */
  datatype LinguiConfig = LinguiConfig(ignore: Option<seq<string>>, srcPathIgnorePatterns: Option<seq<string>>, sourceLocale: Option<string>)

  /** One bundle of the `lingui-multi` section. */
  datatype BundleConfig = BundleConfig(srcPathIgnorePatterns: Option<seq<string>>)

  datatype CompileError =
    | IgnoreListMissing(bundle: string)                               // `options.ignore.length` on `undefined`
    | TranslationsMismatch(locale: string, expected: nat, found: nat)  // "Translations mismatch between locales."
    | MinimalCatalogMissing(locale: string)                           // reading an absent minimal.messages.json
    | MissingTranslations(locale: string, count: nat)                  // "Missing %d translations in locale %s"

  /** One compiled catalog file: its path and the `(locale, catalog)` given to the catalog compiler. */
  datatype Written = Written(file: string, locale: string, catalog: Minimal)

  /** Files written, in order, and the error that ended the run early, if any. */
  datatype Run = Run(written: seq<Written>, abort: Option<CompileError>)

  /** `prefix` written before the run `r`. */
  function Then(prefix: seq<Written>, r: Run): Run {
    Run(prefix + r.written, r.abort)
  }

  /** Writing `a` then `b` before a run is writing `a + b` before it. */
  lemma ThenThen(a: seq<Written>, b: seq<Written>, r: Run)
    ensures Then(a, Then(b, r)) == Then(a + b, r)
  {
    assert a + (b + r.written) == (a + b) + r.written;
  }

  // ---------------------------------------------------------------------------
  // Bundles and ignore lists

  /** `packageObject["lingui-multi"]["__replacement"] = {}`. */
  function Bundles(multi: seq<(string, BundleConfig)>): seq<(string, BundleConfig)> {
    OrderedMap.Put(multi, "__replacement", BundleConfig(None))
  }

  /** Every run compiles the `__replacement` bundle, with no patterns of its own, after the configured ones. */
  lemma ReplacementAlwaysCompiled(multi: seq<(string, BundleConfig)>)
    ensures OrderedMap.Get(Bundles(multi), "__replacement") == Some(BundleConfig(None))
    ensures forall b :: b in OrderedMap.Keys(multi) ==> b in OrderedMap.Keys(Bundles(multi))
  {
    OrderedMap.GetPut(multi, "__replacement", BundleConfig(None), "__replacement");
  }

  /** The global patterns: `srcPathIgnorePatterns` when present, else the API key `ignore`. */
  function GlobalIgnore(lingui: LinguiConfig): Option<seq<string>> {
    if lingui.srcPathIgnorePatterns.Some? then lingui.srcPathIgnorePatterns else lingui.ignore
  }

  /**
   * `options.ignore` for a bundle: the global patterns followed by the
   * bundle's own, or `None` when neither exists (the action then fails on
   * `options.ignore.length`).
   */
  function IgnoreList(lingui: LinguiConfig, bundle: BundleConfig): Option<seq<string>> {
    var global := GlobalIgnore(lingui);
    if bundle.srcPathIgnorePatterns.Some? then
      Some((if global.Some? then global.value else []) + bundle.srcPathIgnorePatterns.value)
    else global
  }

  /** A path is ignored for a bundle exactly when a global pattern or a pattern of the bundle matches it. */
  lemma IgnoreListComposes(lingui: LinguiConfig, bundle: BundleConfig, matches: (string, string) -> bool, path: string)
    requires IgnoreList(lingui, bundle).Some?
    ensures Ignored(IgnoreList(lingui, bundle).value, matches, path)
        <==> ((GlobalIgnore(lingui).Some? && Ignored(GlobalIgnore(lingui).value, matches, path))
              || (bundle.srcPathIgnorePatterns.Some? && Ignored(bundle.srcPathIgnorePatterns.value, matches, path)))
  {
    var global := GlobalIgnore(lingui);
    if bundle.srcPathIgnorePatterns.Some? {
      IgnoredMonotone(if global.Some? then global.value else [], bundle.srcPathIgnorePatterns.value, matches, path);
    }
  }

  // ---------------------------------------------------------------------------
  // Screening

  /** A key is required by a bundle when one of its origins is not ignored. */
  predicate Required(origins: seq<Origin>, patterns: seq<string>, matches: (string, string) -> bool) {
    exists i :: 0 <= i < |origins| && !Ignored(patterns, matches, origins[i].file)
  }

  function Screened(messages: Catalog, patterns: seq<string>, matches: (string, string) -> bool): set<string> {
    set k | k in messages && Required(messages[k].origin, patterns, matches)
  }

  /** Without ignore patterns a key is kept exactly when it has an origin. */
  lemma ScreenedWithoutPatterns(messages: Catalog, matches: (string, string) -> bool)
    ensures Screened(messages, [], matches) == set k | k in messages && messages[k].origin != []
  {
    forall k | k in messages && messages[k].origin != []
      ensures Required(messages[k].origin, [], matches)
    {
      assert !Ignored([], matches, messages[k].origin[0].file);
    }
  }

  /** The `origin.forEach` that sets `required`. */
  method IsRequired(origins: seq<Origin>, patterns: seq<string>, matches: (string, string) -> bool) returns (required: bool)
    ensures required <==> Required(origins, patterns, matches)
  {
    required := false;
    var i := 0;
    while i < |origins|
      invariant 0 <= i <= |origins|
      invariant required <==> exists j :: 0 <= j < i && !Ignored(patterns, matches, origins[j].file)
    {
      if !Ignored(patterns, matches, origins[i].file) {
        required := true;
      }
      i := i + 1;
    }
  }

  /** The screened keys among those already visited. */
  ghost function ScreenedAmong(messages: Catalog, done: set<string>, patterns: seq<string>, matches: (string, string) -> bool): set<string> {
    set k | k in done && k in messages && Required(messages[k].origin, patterns, matches)
  }

  /** Visiting one more key adds it to the screened keys exactly when it is required. */
  lemma ScreenedAmongGrows(messages: Catalog, done: set<string>, key: string, patterns: seq<string>, matches: (string, string) -> bool)
    requires key in messages
    ensures ScreenedAmong(messages, done + {key}, patterns, matches)
         == if Required(messages[key].origin, patterns, matches)
            then ScreenedAmong(messages, done, patterns, matches) + {key}
            else ScreenedAmong(messages, done, patterns, matches)
  {
  }

  /** The `for (key in messagesObject)` loop: each screened key once, so the count is the screened set's size. */
  method ScreenKeys(messagesObject: Catalog, patterns: seq<string>, matches: (string, string) -> bool)
    returns (screenedKeys: seq<string>)
    ensures forall k :: k in screenedKeys <==> k in Screened(messagesObject, patterns, matches)
    ensures |screenedKeys| == |Screened(messagesObject, patterns, matches)|
  {
    screenedKeys := [];
    var remaining := messagesObject.Keys;
    ghost var done: set<string> := {};
    while remaining != {}
      invariant remaining <= messagesObject.Keys && done == messagesObject.Keys - remaining
      invariant forall k :: k in screenedKeys <==> k in ScreenedAmong(messagesObject, done, patterns, matches)
      invariant |screenedKeys| == |ScreenedAmong(messagesObject, done, patterns, matches)|
      decreases remaining
    {
      var key :| key in remaining;
      var required := IsRequired(messagesObject[key].origin, patterns, matches);
      ScreenedAmongGrows(messagesObject, done, key, patterns, matches);
      if required {
        screenedKeys := screenedKeys + [key];
      }
      remaining := remaining - {key};
      done := done + {key};
    }
    assert ScreenedAmong(messagesObject, done, patterns, matches) == Screened(messagesObject, patterns, matches);
  }

  // ---------------------------------------------------------------------------
  // Strict mode, `_.pick` and the output file

  /** Strict checking needs the flag, a configured source locale, and a different locale. */
  predicate StrictApplies(strict: bool, lingui: LinguiConfig, locale: string) {
    strict && lingui.sourceLocale.Some? && locale != lingui.sourceLocale.value
  }

  /** The keys of the whole minimal catalog whose translation is empty. */
  function MissingKeys(minimal: Minimal): set<string> {
    set k | k in minimal && minimal[k] == ""
  }

  /** The keys with an empty translation among those already visited. */
  ghost function MissingAmong(minimal: Minimal, done: set<string>): set<string> {
    set k | k in done && k in minimal && minimal[k] == ""
  }

  /** Visiting one more key adds it to the missing keys exactly when its translation is empty. */
  lemma MissingAmongGrows(minimal: Minimal, done: set<string>, key: string)
    requires key in minimal
    ensures MissingAmong(minimal, done + {key})
         == if minimal[key] == "" then MissingAmong(minimal, done) + {key} else MissingAmong(minimal, done)
  {
  }

  /** The `for (key in minimalCatalogObject)` loop that gathers `missingTranslations`. */
  method GatherMissing(minimalCatalogObject: Minimal) returns (missingTranslations: seq<string>)
    ensures forall k :: k in missingTranslations <==> k in MissingKeys(minimalCatalogObject)
    ensures |missingTranslations| == |MissingKeys(minimalCatalogObject)|
  {
    missingTranslations := [];
    var remaining := minimalCatalogObject.Keys;
    ghost var done: set<string> := {};
    while remaining != {}
      invariant remaining <= minimalCatalogObject.Keys && done == minimalCatalogObject.Keys - remaining
      invariant forall k :: k in missingTranslations <==> k in MissingAmong(minimalCatalogObject, done)
      invariant |missingTranslations| == |MissingAmong(minimalCatalogObject, done)|
      decreases remaining
    {
      var key :| key in remaining;
      MissingAmongGrows(minimalCatalogObject, done, key);
      if minimalCatalogObject[key] == "" {
        missingTranslations := missingTranslations + [key];
      }
      remaining := remaining - {key};
      done := done + {key};
    }
    assert MissingAmong(minimalCatalogObject, done) == MissingKeys(minimalCatalogObject);
  }

  function Listed(keys: seq<string>): set<string> {
    set k | k in keys
  }

  /** lodash `_.pick(minimal, keys)`: the listed keys the catalog has, with their values. */
  function Pick(minimal: Minimal, keys: set<string>): (r: Minimal)
    ensures r.Keys == minimal.Keys * keys
    ensures forall k :: k in r ==> r[k] == minimal[k]
  {
    map k | k in minimal && k in keys :: minimal[k]
  }

  /** Picking twice with the same keys is picking once; picking narrows to the listed keys. */
  lemma PickIdempotent(minimal: Minimal, keys: set<string>, more: set<string>)
    ensures Pick(Pick(minimal, keys), keys) == Pick(minimal, keys)
    ensures Pick(Pick(minimal, keys), more) == Pick(minimal, keys * more)
  {
  }

  /** `_.pick` as the loop over the screened keys it performs. */
  method PickKeys(minimal: Minimal, screenedKeys: seq<string>) returns (picked: Minimal)
    ensures picked == Pick(minimal, Listed(screenedKeys))
  {
    picked := map[];
    var i := 0;
    while i < |screenedKeys|
      invariant 0 <= i <= |screenedKeys|
      invariant picked == Pick(minimal, Listed(screenedKeys[..i]))
    {
      var key := screenedKeys[i];
      assert Listed(screenedKeys[..i + 1]) == Listed(screenedKeys[..i]) + {key} by {
        assert screenedKeys[..i + 1] == screenedKeys[..i] + [key];
      }
      if key in minimal {
        picked := picked[key := minimal[key]];
      }
      i := i + 1;
    }
    assert screenedKeys[..i] == screenedKeys;
  }

  /** `messages.js` for the `__replacement` bundle, `<bundle>.messages.js` for the others. */
  function TargetFile(localeDir: string, locale: string, bundle: string): string {
    if bundle == "__replacement" then localeDir + "/" + locale + "/messages.js"
    else localeDir + "/" + locale + "/" + bundle + ".messages.js"
  }

  /** Different bundles of one locale never write the same file. */
  lemma TargetFileDistinct(localeDir: string, locale: string, b1: string, b2: string)
    requires b1 != b2
    ensures TargetFile(localeDir, locale, b1) != TargetFile(localeDir, locale, b2)
  {
    if b1 != "__replacement" && b2 != "__replacement" {
      InfixDistinct(localeDir + "/" + locale + "/", b1, b2, ".messages.js");
    } else {
      assert |TargetFile(localeDir, locale, b1)| != |TargetFile(localeDir, locale, b2)|;
    }
  }

  /** Different strings between the same prefix and suffix give different strings. */
  lemma InfixDistinct(p: string, x: string, y: string, q: string)
    requires x != y
    ensures p + x + q != p + y + q
  {
    if |x| == |y| {
      assert (p + x + q)[|p|..|p| + |x|] == x;
      assert (p + y + q)[|p|..|p| + |y|] == y;
    }
  }

  // ---------------------------------------------------------------------------
  // One bundle

  /**
   * The `locales.forEach` of one bundle, with the key count so far
   * (`keyCount`, `null` before the first participating locale).
   */
  function BundleRun(locales: seq<LocaleDir>, bundle: string, patterns: seq<string>, matches: (string, string) -> bool,
                     strict: bool, lingui: LinguiConfig, localeDir: string, keyCount: Option<nat>): Run
    decreases locales
  {
    if locales == [] then Run([], None)
    else
      var loc := locales[0];
      if !Participates(loc) then BundleRun(locales[1..], bundle, patterns, matches, strict, lingui, localeDir, keyCount)
      else
        var screened := Screened(loc.messages.value, patterns, matches);
        var expected := if keyCount.Some? then keyCount.value else |screened|;
        if expected != |screened| then Run([], Some(TranslationsMismatch(loc.name, expected, |screened|)))
        else if loc.minimal.None? then Run([], Some(MinimalCatalogMissing(loc.name)))
        else if StrictApplies(strict, lingui, loc.name) && |MissingKeys(loc.minimal.value)| > 0 then
          Run([], Some(MissingTranslations(loc.name, |MissingKeys(loc.minimal.value)|)))
        else
          var w := Written(TargetFile(localeDir, loc.name, bundle), loc.name, Pick(loc.minimal.value, screened));
          Then([w], BundleRun(locales[1..], bundle, patterns, matches, strict, lingui, localeDir, Some(expected)))
  }

  /** One bundle's locale loop, carrying `keyCount` across locales. */
  method CompileBundle(locales: seq<LocaleDir>, bundle: string, patterns: seq<string>, matches: (string, string) -> bool,
                       strict: bool, lingui: LinguiConfig, localeDir: string)
    returns (run: Run)
    ensures run == BundleRun(locales, bundle, patterns, matches, strict, lingui, localeDir, None)
  {
    var written: seq<Written> := [];
    var abort: Option<CompileError> := None;
    var keyCount: Option<nat> := None;
    var i := 0;
    assert locales[0..] == locales;
    while i < |locales| && abort.None?
      invariant 0 <= i <= |locales|
      invariant BundleRun(locales, bundle, patterns, matches, strict, lingui, localeDir, None)
             == if abort.None? then Then(written, BundleRun(locales[i..], bundle, patterns, matches, strict, lingui, localeDir, keyCount))
                else Run(written, abort)
    {
      var locale := locales[i];
      assert locales[i..][0] == locale && locales[i..][1..] == locales[i + 1..];
      ghost var rest := BundleRun(locales[i + 1..], bundle, patterns, matches, strict, lingui, localeDir, keyCount);
      if locale.name == "_build" || !locale.isDirectory || locale.messages.None? {
        // skipped, as the three early returns do
      } else {
        var screenedKeys := ScreenKeys(locale.messages.value, patterns, matches);
        var localeTranslationsCount := |screenedKeys|;
        if keyCount.None? {
          keyCount := Some(localeTranslationsCount);
        }
        if keyCount.value != localeTranslationsCount {
          abort := Some(TranslationsMismatch(locale.name, keyCount.value, localeTranslationsCount));
          assert written + [] == written;
        } else if locale.minimal.None? {
          abort := Some(MinimalCatalogMissing(locale.name));
          assert written + [] == written;
        } else {
          var minimalCatalogObject := locale.minimal.value;
          var missing: seq<string> := [];
          if strict && lingui.sourceLocale.Some? && locale.name != lingui.sourceLocale.value {
            missing := GatherMissing(minimalCatalogObject);
          }
          if |missing| > 0 {
            abort := Some(MissingTranslations(locale.name, |missing|));
            assert written + [] == written;
          } else {
            var screenedCatalogObject := PickKeys(minimalCatalogObject, screenedKeys);
            var w := Written(TargetFile(localeDir, locale.name, bundle), locale.name, screenedCatalogObject);
            assert Listed(screenedKeys) == Screened(locale.messages.value, patterns, matches);
            ThenThen(written, [w], rest);
            written := written + [w];
          }
        }
      }
      i := i + 1;
    }
    if abort.None? {
      assert locales[i..] == [];
      assert written + [] == written;
    }
    run := Run(written, abort);
  }

  /** Every locale of a bundle that gets through keeps the same number of keys as the first. */
  lemma {:induction false} CountsAgree(locales: seq<LocaleDir>, bundle: string, patterns: seq<string>, matches: (string, string) -> bool,
                                       strict: bool, lingui: LinguiConfig, localeDir: string, n: nat)
    requires BundleRun(locales, bundle, patterns, matches, strict, lingui, localeDir, Some(n)).abort.None?
    ensures forall i :: 0 <= i < |locales| && Participates(locales[i]) ==>
              |Screened(locales[i].messages.value, patterns, matches)| == n
    decreases locales
  {
    if locales != [] {
      CountsAgree(locales[1..], bundle, patterns, matches, strict, lingui, localeDir, n);
      forall i | 1 <= i < |locales| ensures locales[i] == locales[1..][i - 1] { }
    }
  }

  /** A bundle that completes has kept the same number of keys for all its locales. */
  lemma {:induction false} CompletedBundleCountsEqual(locales: seq<LocaleDir>, bundle: string, patterns: seq<string>,
                                                      matches: (string, string) -> bool, strict: bool, lingui: LinguiConfig, localeDir: string)
    requires BundleRun(locales, bundle, patterns, matches, strict, lingui, localeDir, None).abort.None?
    ensures forall i, j :: 0 <= i < |locales| && 0 <= j < |locales| && Participates(locales[i]) && Participates(locales[j]) ==>
              |Screened(locales[i].messages.value, patterns, matches)| == |Screened(locales[j].messages.value, patterns, matches)|
    decreases locales
  {
    if locales != [] {
      forall i | 1 <= i < |locales| ensures locales[i] == locales[1..][i - 1] { }
      if Participates(locales[0]) {
        CountsAgree(locales[1..], bundle, patterns, matches, strict, lingui, localeDir,
                    |Screened(locales[0].messages.value, patterns, matches)|);
      } else {
        CompletedBundleCountsEqual(locales[1..], bundle, patterns, matches, strict, lingui, localeDir);
      }
    }
  }

  /** A missing-translation abort only comes from strict mode, for a locale other than the source locale, with at least one key. */
  lemma {:induction false} StrictAbortOnlyForOtherLocales(locales: seq<LocaleDir>, bundle: string, patterns: seq<string>,
                                                          matches: (string, string) -> bool, strict: bool, lingui: LinguiConfig,
                                                          localeDir: string, keyCount: Option<nat>)
    ensures var r := BundleRun(locales, bundle, patterns, matches, strict, lingui, localeDir, keyCount);
            r.abort.Some? && r.abort.value.MissingTranslations? ==>
              strict && lingui.sourceLocale.Some? && r.abort.value.locale != lingui.sourceLocale.value && r.abort.value.count > 0
    decreases locales
  {
    if locales != [] {
      var loc := locales[0];
      if !Participates(loc) {
        StrictAbortOnlyForOtherLocales(locales[1..], bundle, patterns, matches, strict, lingui, localeDir, keyCount);
      } else {
        var expected := if keyCount.Some? then keyCount.value else |Screened(loc.messages.value, patterns, matches)|;
        StrictAbortOnlyForOtherLocales(locales[1..], bundle, patterns, matches, strict, lingui, localeDir, Some(expected));
      }
    }
  }

  /**
   * Strict mode looks at the whole minimal catalog: an empty translation
   * stops the run even for a key the bundle does not screen in.
   */
  lemma StrictSeesUnscreenedKeys(loc: LocaleDir, bundle: string, patterns: seq<string>, matches: (string, string) -> bool,
                                 lingui: LinguiConfig, localeDir: string, k: string)
    requires Participates(loc) && loc.minimal.Some? && StrictApplies(true, lingui, loc.name)
    requires k in loc.minimal.value && loc.minimal.value[k] == ""
    ensures BundleRun([loc], bundle, patterns, matches, true, lingui, localeDir, None).abort
         == Some(MissingTranslations(loc.name, |MissingKeys(loc.minimal.value)|))
  {
    assert k in MissingKeys(loc.minimal.value);
  }

  /**
   * Each file written is the bundle's file for a participating locale, and
   * holds that locale's minimal catalog restricted to its screened keys.
   */
  lemma {:induction false} WrittenArePicks(locales: seq<LocaleDir>, bundle: string, patterns: seq<string>,
                                           matches: (string, string) -> bool, strict: bool, lingui: LinguiConfig,
                                           localeDir: string, keyCount: Option<nat>)
    ensures forall w :: w in BundleRun(locales, bundle, patterns, matches, strict, lingui, localeDir, keyCount).written ==>
              exists i :: 0 <= i < |locales| && Participates(locales[i]) && locales[i].minimal.Some?
                && w == Written(TargetFile(localeDir, locales[i].name, bundle), locales[i].name,
                                Pick(locales[i].minimal.value, Screened(locales[i].messages.value, patterns, matches)))
    decreases locales
  {
    if locales != [] {
      var loc := locales[0];
      var next := if !Participates(loc) then keyCount
                  else if keyCount.Some? then keyCount
                  else Some(|Screened(loc.messages.value, patterns, matches)|);
      WrittenArePicks(locales[1..], bundle, patterns, matches, strict, lingui, localeDir, next);
      forall i | 1 <= i < |locales| ensures locales[i] == locales[1..][i - 1] { }
    }
  }

  // ---------------------------------------------------------------------------
  // All bundles

  /** The `for (bundle in …)` loop: bundles in order, each run to completion unless one aborts. */
  function CompileRun(bundles: seq<(string, BundleConfig)>, locales: seq<LocaleDir>, matches: (string, string) -> bool,
                      strict: bool, lingui: LinguiConfig, localeDir: string): Run
    decreases bundles
  {
    if bundles == [] then Run([], None)
    else
      var patterns := IgnoreList(lingui, bundles[0].1);
      if patterns.None? then Run([], Some(IgnoreListMissing(bundles[0].0)))
      else
        var r := BundleRun(locales, bundles[0].0, patterns.value, matches, strict, lingui, localeDir, None);
        if r.abort.Some? then r
        else Then(r.written, CompileRun(bundles[1..], locales, matches, strict, lingui, localeDir))
  }

  /** The whole `compile` action over the configured bundles. */
  function Compiled(multi: seq<(string, BundleConfig)>, locales: seq<LocaleDir>, matches: (string, string) -> bool,
                    strict: bool, lingui: LinguiConfig, localeDir: string): Run
  {
    CompileRun(Bundles(multi), locales, matches, strict, lingui, localeDir)
  }

  /** The `Object.keys(multi).forEach` of the action, stopping at the first abort. */
  method Compile(multi: seq<(string, BundleConfig)>, locales: seq<LocaleDir>, matches: (string, string) -> bool,
                 strict: bool, lingui: LinguiConfig, localeDir: string)
    returns (run: Run)
    ensures run == Compiled(multi, locales, matches, strict, lingui, localeDir)
  {
    var bundles := Bundles(multi);
    var written: seq<Written> := [];
    var abort: Option<CompileError> := None;
    var i := 0;
    assert bundles[0..] == bundles;
    while i < |bundles| && abort.None?
      invariant 0 <= i <= |bundles|
      invariant CompileRun(bundles, locales, matches, strict, lingui, localeDir)
             == if abort.None? then Then(written, CompileRun(bundles[i..], locales, matches, strict, lingui, localeDir))
                else Run(written, abort)
    {
      var (bundle, config) := bundles[i];
      assert bundles[i..][0] == bundles[i] && bundles[i..][1..] == bundles[i + 1..];
      var ignore := IgnoreList(lingui, config);
      if ignore.None? {
        abort := Some(IgnoreListMissing(bundle));
        assert written + [] == written;
      } else {
        var r := CompileBundle(locales, bundle, ignore.value, matches, strict, lingui, localeDir);
        ghost var rest := CompileRun(bundles[i + 1..], locales, matches, strict, lingui, localeDir);
        ThenThen(written, r.written, rest);
        written := written + r.written;
        abort := r.abort;
      }
      i := i + 1;
    }
    if abort.None? {
      assert bundles[i..] == [];
      assert written + [] == written;
    }
    run := Run(written, abort);
  }

  /** Every file written by a whole run belongs to a compiled bundle and a participating locale. */
  lemma {:induction false} CompiledFilesArePicks(bundles: seq<(string, BundleConfig)>, locales: seq<LocaleDir>,
                                                 matches: (string, string) -> bool, strict: bool, lingui: LinguiConfig, localeDir: string)
    ensures forall w :: w in CompileRun(bundles, locales, matches, strict, lingui, localeDir).written ==>
              exists b, i :: 0 <= b < |bundles| && 0 <= i < |locales| && Participates(locales[i])
                && w.file == TargetFile(localeDir, locales[i].name, bundles[b].0) && w.locale == locales[i].name
    decreases bundles
  {
    if bundles != [] {
      var patterns := IgnoreList(lingui, bundles[0].1);
      if patterns.Some? {
        WrittenArePicks(locales, bundles[0].0, patterns.value, matches, strict, lingui, localeDir, None);
        CompiledFilesArePicks(bundles[1..], locales, matches, strict, lingui, localeDir);
        forall b | 1 <= b < |bundles| ensures bundles[b] == bundles[1..][b - 1] { }
      }
    }
  }
}
