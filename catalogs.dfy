/**
 * Message catalogs as the tools read and write them: a key (the message
 * text) maps to an entry with a translation and the list of places the key
 * was found. Locale directories and the ignore-pattern test are modelled
 * here too, since both the collector and the command-line actions use them.
 */
module Catalogs {
  import opened Wrappers

  /** One `[file, line]` pair of an entry's `origin` list. */
  datatype Origin = Origin(file: string, line: nat)

  /** A catalog entry `{translation, origin}`. */
  datatype Entry = Entry(translation: string, origin: seq<Origin>)

  /** The complex catalog `messages.json`. */
  type Catalog = map<string, Entry>

  /** The minimal catalog `minimal.messages.json`: key -> translation. */
  type Minimal = map<string, string>

  /**
   * `new RegExp(patterns.join("|"), "i").test(path)`: the alternation
   * matches when one of its patterns does. `matches` stands for one pattern's
   * case-insensitive regular-expression search; with no patterns there is no
   * regular expression and nothing is ignored.
   */
  predicate Ignored(patterns: seq<string>, matches: (string, string) -> bool, path: string) {
    exists i :: 0 <= i < |patterns| && matches(patterns[i], path)
  }

  /** Adding patterns can only ignore more paths. */
  lemma IgnoredMonotone(p: seq<string>, q: seq<string>, matches: (string, string) -> bool, path: string)
    ensures Ignored(p, matches, path) ==> Ignored(p + q, matches, path)
    ensures Ignored(q, matches, path) ==> Ignored(p + q, matches, path)
    ensures Ignored(p + q, matches, path) ==> Ignored(p, matches, path) || Ignored(q, matches, path)
  {
    if Ignored(q, matches, path) {
      var i :| 0 <= i < |q| && matches(q[i], path);
      assert (p + q)[|p| + i] == q[i];
    }
    if Ignored(p + q, matches, path) {
      var i :| 0 <= i < |p + q| && matches((p + q)[i], path);
      if i >= |p| {
        assert q[i - |p|] == (p + q)[i];
      } else {
        assert p[i] == (p + q)[i];
      }
    }
    if Ignored(p, matches, path) {
      var i :| 0 <= i < |p| && matches(p[i], path);
      assert (p + q)[i] == p[i];
    }
  }

  /**
   * An entry of the locale directory: its name, whether it is a directory,
   * and the parsed `messages.json` and `minimal.messages.json` when present.
   */
  datatype LocaleDir = LocaleDir(name: string, isDirectory: bool, messages: Option<Catalog>, minimal: Option<Minimal>)

  /** Locales the actions process: not `_build`, a directory, with a `messages.json`. */
  predicate Participates(loc: LocaleDir) {
    loc.name != "_build" && loc.isDirectory && loc.messages.Some?
  }
}
