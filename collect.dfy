/**
 * dist/collect.js: building a catalog from source files. Each file's
 * translatable strings (see `Extract`) become catalog keys with one origin
 * `[file, 0]` per occurrence; directories are collected recursively and
 * merged in; missing and ignored paths and files that are not TypeScript are
 * skipped.
 */
module Collect {
  import opened Wrappers
  import opened Text
  import opened Ast
  import opened Catalogs
  import Extract

  // ---------------------------------------------------------------------------
  // _mergeCatalogs

  /** The origins of `k` in `c`, or none when `c` lacks the key. */
  function OriginsIn(c: Catalog, k: string): seq<Origin> {
    if k in c then c[k].origin else []
  }

  /**
   * `_mergeCatalogs(a, b)`: the union of the keys; a shared key lists `a`'s
   * origins, then `b`'s; every translation is reset to `''`.
   */
  function Merged(a: Catalog, b: Catalog): (r: Catalog)
    ensures r.Keys == a.Keys + b.Keys
  {
    map k | k in a.Keys + b.Keys :: Entry("", OriginsIn(a, k) + OriginsIn(b, k))
  }

  /** Merging is associative, so the grouping of directory merges does not matter. */
  lemma MergedAssociative(a: Catalog, b: Catalog, c: Catalog)
    ensures Merged(Merged(a, b), c) == Merged(a, Merged(b, c))
  {
    var ab, bc := Merged(a, b), Merged(b, c);
    var l, r := Merged(ab, c), Merged(a, bc);
    assert l.Keys == r.Keys;
    forall k | k in l.Keys
      ensures l[k] == r[k]
    {
      MergedOrigins(a, b, k);
      MergedOrigins(b, c, k);
      MergedOrigins(ab, c, k);
      MergedOrigins(a, bc, k);
      ConcatAssociative(OriginsIn(a, k), OriginsIn(b, k), OriginsIn(c, k));
    }
  }

  lemma MergedOrigins(a: Catalog, b: Catalog, k: string)
    ensures OriginsIn(Merged(a, b), k) == OriginsIn(a, k) + OriginsIn(b, k)
    ensures k in Merged(a, b) ==> Merged(a, b)[k] == Entry("", OriginsIn(a, k) + OriginsIn(b, k))
  {
  }

  /** Merging with an empty catalog keeps every key and origin list and clears the translations. */
  lemma MergedEmpty(a: Catalog)
    ensures Merged(a, map[]) == Merged(map[], a)
    ensures forall k :: k in a ==> Merged(a, map[])[k] == Entry("", a[k].origin)
  {
    forall k | k in a
      ensures Merged(a, map[])[k] == Entry("", a[k].origin)
      ensures Merged(map[], a)[k] == Entry("", a[k].origin)
    {
      assert OriginsIn(a, k) + [] == OriginsIn(a, k);
      assert [] + OriginsIn(a, k) == OriginsIn(a, k);
    }
  }

  /**
   * `c` after the entries of `catalog` whose keys are in `done` have been
   * added: a new key gets a copy of the origins and translation `''`, a key
   * already in `c` gets the origins appended.
   */
  function AddedEntries(c: Catalog, catalog: Catalog, done: set<string>): Catalog
    requires done <= catalog.Keys
  {
    map k | k in c.Keys + done ::
      if k in done then
        (if k in c then c[k].(origin := c[k].origin + catalog[k].origin) else Entry("", catalog[k].origin))
      else c[k]
  }

  /** Adding one more of `catalog`'s strings updates just that string's entry. */
  lemma AddedEntriesStep(c0: Catalog, catalog: Catalog, done: set<string>, str: string)
    requires done <= catalog.Keys && str in catalog && str !in done
    ensures var c := AddedEntries(c0, catalog, done);
            AddedEntries(c0, catalog, done + {str})
            == if str in c then c[str := c[str].(origin := c[str].origin + catalog[str].origin)]
               else c[str := Entry("", catalog[str].origin)]
  {
  }

  /** The inner `Object.entries(catalog).forEach` of `_mergeCatalogs`. */
  method AddEntries(c0: Catalog, catalog: Catalog) returns (c: Catalog)
    ensures c == AddedEntries(c0, catalog, catalog.Keys)
  {
    c := c0;
    var remaining := catalog.Keys;
    assert c0 == AddedEntries(c0, catalog, {});
    while remaining != {}
      invariant remaining <= catalog.Keys
      invariant c == AddedEntries(c0, catalog, catalog.Keys - remaining)
      decreases remaining
    {
      var str :| str in remaining;
      ghost var done := catalog.Keys - remaining;
      AddedEntriesStep(c0, catalog, done, str);
      if str in c {
        c := c[str := c[str].(origin := c[str].origin + catalog[str].origin)];
      } else {
        c := c[str := Entry("", catalog[str].origin)];
      }
      remaining := remaining - {str};
      assert catalog.Keys - remaining == done + {str};
    }
  }

  /** `_mergeCatalogs`: `a`'s entries, then `b`'s, into a fresh catalog. */
  method MergeCatalogs(a: Catalog, b: Catalog) returns (c: Catalog)
    ensures c == Merged(a, b)
  {
    c := AddEntries(map[], a);
    assert c == map k | k in a.Keys :: Entry("", a[k].origin);
    c := AddEntries(c, b);
    forall k | k in c
      ensures c[k] == Merged(a, b)[k]
    {
      if k in a && k !in b {
        assert OriginsIn(a, k) + OriginsIn(b, k) == a[k].origin;
      } else if k !in a {
        assert OriginsIn(a, k) + OriginsIn(b, k) == b[k].origin;
      }
    }
  }

  // ---------------------------------------------------------------------------
  // collectFromFiles

  /** A path given to `collectFromFiles`: absent, a parsed source file, or a directory with its entries. */
  datatype FsNode =
    | Missing(path: string)
    | File(path: string, program: Node)
    | Directory(path: string, entries: seq<FsNode>)

  predicate IsSourceFile(path: string) {
    EndsWith(path, ".ts") || EndsWith(path, ".tsx")
  }

  /** The strings of one file, each paired with the file's path. */
  function Tagged(strings: seq<string>, file: string): (r: seq<(string, string)>)
    ensures |r| == |strings| && forall i :: 0 <= i < |r| ==> r[i] == (strings[i], file)
  {
    seq(|strings|, i requires 0 <= i < |strings| => (strings[i], file))
  }

  /** Every occurrence `(string, file)` found under `n`, in the order the collector meets them. */
  function NodeOccurrences(n: FsNode, patterns: seq<string>, matches: (string, string) -> bool): seq<(string, string)>
    decreases n
  {
    if n.Missing? || Ignored(patterns, matches, n.path) then []
    else if n.Directory? then Occurrences(n.entries, patterns, matches)
    else if !IsSourceFile(n.path) then []
    else Tagged(Extract.Walk(n.program), n.path)
  }

  function Occurrences(ns: seq<FsNode>, patterns: seq<string>, matches: (string, string) -> bool): seq<(string, string)>
    decreases ns
  {
    if ns == [] then [] else NodeOccurrences(ns[0], patterns, matches) + Occurrences(ns[1..], patterns, matches)
  }

  /** The origins of `s`: one `[file, 0]` per occurrence of `s`, in order. */
  function OriginsOf(occ: seq<(string, string)>, s: string): seq<Origin> {
    if occ == [] then []
    else (if occ[0].0 == s then [Origin(occ[0].1, 0)] else []) + OriginsOf(occ[1..], s)
  }

  function StringsOf(occ: seq<(string, string)>): set<string> {
    set i | 0 <= i < |occ| :: occ[i].0
  }

  /** The catalog of a list of occurrences: one entry per string, with translation `''`. */
  function CatalogOf(occ: seq<(string, string)>): Catalog {
    map s | s in StringsOf(occ) :: Entry("", OriginsOf(occ, s))
  }

  lemma {:induction false} OriginsOfAppend(a: seq<(string, string)>, b: seq<(string, string)>, s: string)
    ensures OriginsOf(a + b, s) == OriginsOf(a, s) + OriginsOf(b, s)
  {
    if a == [] {
      assert a + b == b;
    } else {
      assert (a + b)[0] == a[0] && (a + b)[1..] == a[1..] + b;
      OriginsOfAppend(a[1..], b, s);
      var head := if a[0].0 == s then [Origin(a[0].1, 0)] else [];
      ConcatAssociative(head, OriginsOf(a[1..], s), OriginsOf(b, s));
    }
  }

  /** A string has origins exactly when it occurs. */
  lemma {:induction false} OriginsOfEmpty(occ: seq<(string, string)>, s: string)
    ensures OriginsOf(occ, s) == [] <==> s !in StringsOf(occ)
  {
    if occ != [] {
      OriginsOfEmpty(occ[1..], s);
      assert StringsOf(occ) == {occ[0].0} + StringsOf(occ[1..]) by {
        forall x | x in StringsOf(occ) ensures x in {occ[0].0} + StringsOf(occ[1..]) {
          var i :| 0 <= i < |occ| && occ[i].0 == x;
          if i > 0 {
            assert occ[1..][i - 1] == occ[i];
          }
        }
        forall x | x in StringsOf(occ[1..]) ensures x in StringsOf(occ) {
          var i :| 0 <= i < |occ[1..]| && occ[1..][i].0 == x;
          assert occ[i + 1] == occ[1..][i];
        }
      }
    }
  }

  lemma StringsOfAppend(a: seq<(string, string)>, b: seq<(string, string)>)
    ensures StringsOf(a + b) == StringsOf(a) + StringsOf(b)
  {
    forall x | x in StringsOf(a) ensures x in StringsOf(a + b) {
      var i :| 0 <= i < |a| && a[i].0 == x;
      assert (a + b)[i] == a[i];
    }
    forall x | x in StringsOf(a + b) ensures x in StringsOf(a) + StringsOf(b) {
      var i :| 0 <= i < |a + b| && (a + b)[i].0 == x;
      if i >= |a| {
        assert b[i - |a|] == (a + b)[i];
      }
    }
    forall x | x in StringsOf(b) ensures x in StringsOf(a + b) {
      var i :| 0 <= i < |b| && b[i].0 == x;
      assert (a + b)[|a| + i] == b[i];
    }
  }

  /** Collecting two lists of occurrences and merging the catalogs is collecting their concatenation. */
  lemma CatalogOfAppend(a: seq<(string, string)>, b: seq<(string, string)>)
    ensures CatalogOf(a + b) == Merged(CatalogOf(a), CatalogOf(b))
  {
    var l, r := CatalogOf(a + b), Merged(CatalogOf(a), CatalogOf(b));
    CatalogOfAppendKeys(a, b);
    forall s | s in l
      ensures l[s] == r[s]
    {
      CatalogOfAppendAt(a, b, s);
    }
  }

  lemma CatalogOfAppendKeys(a: seq<(string, string)>, b: seq<(string, string)>)
    ensures CatalogOf(a + b).Keys == Merged(CatalogOf(a), CatalogOf(b)).Keys
  {
    StringsOfAppend(a, b);
  }

  lemma CatalogOfAppendAt(a: seq<(string, string)>, b: seq<(string, string)>, s: string)
    requires s in StringsOf(a + b)
    ensures CatalogOf(a + b)[s] == Merged(CatalogOf(a), CatalogOf(b))[s]
  {
    StringsOfAppend(a, b);
    OriginsOfAppend(a, b, s);
    OriginsOfEmpty(a, s);
    OriginsOfEmpty(b, s);
  }

  /** One more occurrence of `s` in `file` appends `[file, 0]` to `s`'s origins, creating the entry if needed. */
  lemma CatalogOfSnoc(occ: seq<(string, string)>, s: string, file: string)
    ensures CatalogOf(occ + [(s, file)])
         == if s in CatalogOf(occ)
            then CatalogOf(occ)[s := CatalogOf(occ)[s].(origin := CatalogOf(occ)[s].origin + [Origin(file, 0)])]
            else CatalogOf(occ)[s := Entry("", [Origin(file, 0)])]
  {
    var occ' := occ + [(s, file)];
    var c, c' := CatalogOf(occ), CatalogOf(occ');
    var e := if s in c then c[s].(origin := c[s].origin + [Origin(file, 0)]) else Entry("", [Origin(file, 0)]);
    StringsOfAppend(occ, [(s, file)]);
    assert [(s, file)][0].0 == s;
    assert StringsOf([(s, file)]) == {s};
    assert c'.Keys == c.Keys + {s};
    forall k | k in c'
      ensures c'[k] == c[s := e][k]
    {
      OriginsOfAppend(occ, [(s, file)], k);
      assert OriginsOf([(s, file)], k) == (if k == s then [Origin(file, 0)] else []) + OriginsOf([], k);
      if k == s {
        OriginsOfEmpty(occ, s);
        if s !in c {
          assert OriginsOf(occ, s) == [];
        }
      } else {
        assert OriginsOf(occ, k) + [] == OriginsOf(occ, k);
      }
    }
  }

  lemma OccurrencesSnoc(ns: seq<FsNode>, i: nat, patterns: seq<string>, matches: (string, string) -> bool)
    requires i < |ns|
    ensures Occurrences(ns[..i + 1], patterns, matches)
         == Occurrences(ns[..i], patterns, matches) + NodeOccurrences(ns[i], patterns, matches)
  {
    OccurrencesAppend(ns[..i], [ns[i]], patterns, matches);
    assert ns[..i] + [ns[i]] == ns[..i + 1];
    assert Occurrences([ns[i]], patterns, matches) == NodeOccurrences(ns[i], patterns, matches) + Occurrences([], patterns, matches);
  }

  lemma {:induction false} OccurrencesAppend(a: seq<FsNode>, b: seq<FsNode>, patterns: seq<string>, matches: (string, string) -> bool)
    ensures Occurrences(a + b, patterns, matches) == Occurrences(a, patterns, matches) + Occurrences(b, patterns, matches)
  {
    if a == [] {
      assert a + b == b;
    } else {
      assert (a + b)[0] == a[0] && (a + b)[1..] == a[1..] + b;
      OccurrencesAppend(a[1..], b, patterns, matches);
    }
  }

  /** The `forEach` over one file's strings: one origin `[path, 0]` per occurrence. */
  method AddOccurrences(c0: Catalog, ghost before: seq<(string, string)>, strings: seq<string>, path: string)
    returns (translatableStrings: Catalog)
    requires c0 == CatalogOf(before)
    ensures translatableStrings == CatalogOf(before + Tagged(strings, path))
  {
    translatableStrings := c0;
    var j := 0;
    assert before + Tagged(strings[..0], path) == before;
    while j < |strings|
      invariant 0 <= j <= |strings|
      invariant translatableStrings == CatalogOf(before + Tagged(strings[..j], path))
    {
      var str := strings[j];
      CatalogOfSnoc(before + Tagged(strings[..j], path), str, path);
      assert before + Tagged(strings[..j + 1], path) == (before + Tagged(strings[..j], path)) + [(str, path)];
      if str !in translatableStrings {
        translatableStrings := translatableStrings[str := Entry("", [Origin(path, 0)])];
      } else {
        translatableStrings := translatableStrings[str := translatableStrings[str].(origin := translatableStrings[str].origin + [Origin(path, 0)])];
      }
      j := j + 1;
    }
    assert strings[..|strings|] == strings;
  }

  /**
   * `collectFromFiles(srcPaths, ignore)`: the catalog of every occurrence
   * below the given paths.
   */
  method CollectFromFiles(srcPaths: seq<FsNode>, ignore: seq<string>, matches: (string, string) -> bool)
    returns (translatableStrings: Catalog)
    ensures translatableStrings == CatalogOf(Occurrences(srcPaths, ignore, matches))
    decreases srcPaths
  {
    translatableStrings := map[];
    var i := 0;
    assert srcPaths[..0] == [];
    while i < |srcPaths|
      invariant 0 <= i <= |srcPaths|
      invariant translatableStrings == CatalogOf(Occurrences(srcPaths[..i], ignore, matches))
    {
      var srcFilename := srcPaths[i];
      ghost var before := Occurrences(srcPaths[..i], ignore, matches);
      OccurrencesSnoc(srcPaths, i, ignore, matches);
      if srcFilename.Missing? || Ignored(ignore, matches, srcFilename.path) {
        assert before + [] == before;
      } else if srcFilename.Directory? {
        var sub := CollectFromFiles(srcFilename.entries, ignore, matches);
        CatalogOfAppend(before, Occurrences(srcFilename.entries, ignore, matches));
        translatableStrings := MergeCatalogs(translatableStrings, sub);
      } else if !IsSourceFile(srcFilename.path) {
        assert before + [] == before;
      } else {
        var strings := Extract.ExtractFromProgram(srcFilename.program);
        translatableStrings := AddOccurrences(translatableStrings, before, strings, srcFilename.path);
      }
      i := i + 1;
    }
    assert srcPaths[..|srcPaths|] == srcPaths;
  }

  // ---------------------------------------------------------------------------
  // Properties of the collected catalog

  /** Every occurrence comes from a source file that is not ignored. */
  lemma {:induction false} OccurrencesAdmissible(n: FsNode, patterns: seq<string>, matches: (string, string) -> bool)
    ensures forall i :: 0 <= i < |NodeOccurrences(n, patterns, matches)| ==>
              var file := NodeOccurrences(n, patterns, matches)[i].1;
              IsSourceFile(file) && !Ignored(patterns, matches, file)
    decreases n
  {
    if !(n.Missing? || Ignored(patterns, matches, n.path)) && n.Directory? {
      OccurrencesAllAdmissible(n.entries, patterns, matches);
    }
  }

  lemma {:induction false} OccurrencesAllAdmissible(ns: seq<FsNode>, patterns: seq<string>, matches: (string, string) -> bool)
    ensures forall i :: 0 <= i < |Occurrences(ns, patterns, matches)| ==>
              var file := Occurrences(ns, patterns, matches)[i].1;
              IsSourceFile(file) && !Ignored(patterns, matches, file)
    decreases ns
  {
    if ns != [] {
      OccurrencesAdmissible(ns[0], patterns, matches);
      OccurrencesAllAdmissible(ns[1..], patterns, matches);
      var a, b := NodeOccurrences(ns[0], patterns, matches), Occurrences(ns[1..], patterns, matches);
      assert forall i :: |a| <= i < |a + b| ==> (a + b)[i] == b[i - |a|];
    }
  }

  lemma {:induction false} OriginsFromOccurrences(occ: seq<(string, string)>, s: string)
    ensures forall o :: o in OriginsOf(occ, s) ==> o.line == 0 && exists i :: 0 <= i < |occ| && occ[i] == (s, o.file)
  {
    if occ != [] {
      OriginsFromOccurrences(occ[1..], s);
      forall o | o in OriginsOf(occ, s)
        ensures o.line == 0 && exists i :: 0 <= i < |occ| && occ[i] == (s, o.file)
      {
        if o in OriginsOf(occ[1..], s) {
          var i :| 0 <= i < |occ[1..]| && occ[1..][i] == (s, o.file);
          assert occ[i + 1] == occ[1..][i];
        }
      }
    }
  }

  /**
   * Every origin in a collected catalog names a `.ts`/`.tsx` file that no
   * ignore pattern matches, at line 0.
   */
  lemma CollectedOriginsAdmissible(srcPaths: seq<FsNode>, patterns: seq<string>, matches: (string, string) -> bool)
    ensures var c := CatalogOf(Occurrences(srcPaths, patterns, matches));
            forall k, o :: k in c && o in c[k].origin ==>
              o.line == 0 && IsSourceFile(o.file) && !Ignored(patterns, matches, o.file)
  {
    var occ := Occurrences(srcPaths, patterns, matches);
    OccurrencesAllAdmissible(srcPaths, patterns, matches);
    forall k, o | k in CatalogOf(occ) && o in CatalogOf(occ)[k].origin
      ensures o.line == 0 && IsSourceFile(o.file) && !Ignored(patterns, matches, o.file)
    {
      OriginsFromOccurrences(occ, k);
    }
  }

  /** A missing or ignored path contributes nothing, even when it is a directory. */
  lemma SkippedPathsContributeNothing(n: FsNode, patterns: seq<string>, matches: (string, string) -> bool)
    requires n.Missing? || Ignored(patterns, matches, n.path) || (n.File? && !IsSourceFile(n.path))
    ensures NodeOccurrences(n, patterns, matches) == []
  {
  }
}
