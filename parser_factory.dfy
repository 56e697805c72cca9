/**
 * The parser registry of src/parsers/ParserFactory.ts: a fixed list of parsers, each known
 * by its language name and its file extensions; lookup of the parser for a file path by the
 * path's extension; the list of supported extensions without duplicates; the language
 * names; and the glob pattern that finds every supported file.
 */
module ParserFactory {
  import opened Wrappers

  /** A registered parser as the factory sees it: its language and its extensions. */
  datatype Parser = Parser(language: string, extensions: seq<string>)

  /** The TypeScript parser, which also reads JavaScript. */
  const TypeScript: Parser := Parser("TypeScript", [".ts", ".tsx", ".js", ".jsx"])

  /** The parsers the factory holds, in lookup order. */
  const Registry: seq<Parser> := [TypeScript]

  /** The last position of `c` in `s`. */
  function LastIndexOf(s: string, c: char): (r: Option<nat>)
    ensures r.Some? ==> r.value < |s| && s[r.value] == c
                        && forall k :: r.value < k < |s| ==> s[k] != c
    ensures r.None? ==> forall k :: 0 <= k < |s| ==> s[k] != c
  {
    if s == [] then None
    else if s[|s| - 1] == c then Some(|s| - 1)
    else LastIndexOf(s[..|s| - 1], c)
  }

  /** The first position of `x` in `s`. */
  function FirstIndex<T(==)>(s: seq<T>, x: T): (r: nat)
    requires x in s
    ensures r < |s| && s[r] == x && forall k :: 0 <= k < r ==> s[k] != x
  {
    if s[0] == x then 0 else 1 + FirstIndex(s[1..], x)
  }

  /** A position holding `c` with no `c` after it is the last position of `c`. */
  lemma LastIndexAt(s: string, c: char, k: nat)
    requires k < |s| && s[k] == c && forall j :: k < j < |s| ==> s[j] != c
    ensures LastIndexOf(s, c) == Some(k)
  {
  }

  /** A position holding `x` with no `x` before it is the first position of `x`. */
  lemma FirstIndexAt<T>(s: seq<T>, x: T, k: nat)
    requires k < |s| && s[k] == x && forall j :: 0 <= j < k ==> s[j] != x
    ensures x in s && FirstIndex(s, x) == k
  {
  }

  /** The last component of a `/`-separated path; non-empty unless the path ends in `/`. */
  function BaseName(path: string): (r: string)
    ensures |r| <= |path| && path[|path| - |r|..] == r
    ensures forall k :: 0 <= k < |r| ==> r[k] != '/'
    ensures path != [] && path[|path| - 1] != '/' ==> r != []
  {
    match LastIndexOf(path, '/')
    case None => path
    case Some(k) => path[k + 1..]
  }

  /**
   * The extension of a path: the last component's suffix from its last `.`, or empty when
   * that component has no `.` or has it only in front (a dot-file).
   */
  function ExtName(path: string): (r: string)
    ensures |r| <= |path| && path[|path| - |r|..] == r
    ensures r == [] || (r[0] == '.' && forall k :: 1 <= k < |r| ==> r[k] != '.' && r[k] != '/')
  {
    var base := BaseName(path);
    match LastIndexOf(base, '.')
    case None => ""
    case Some(k) => if k == 0 then "" else base[k..]
  }

  /** Text without `/` appended to a path extends its last component. */
  lemma BaseNameAppend(path: string, t: string)
    requires forall j :: 0 <= j < |t| ==> t[j] != '/'
    ensures BaseName(path + t) == BaseName(path) + t
  {
    match LastIndexOf(path, '/')
    case None =>
      assert forall j :: 0 <= j < |path + t| ==> (path + t)[j] != '/';
    case Some(k) =>
      LastIndexAt(path + t, '/', k);
      assert (path + t)[k + 1..] == path[k + 1..] + t;
  }

  /** A path whose last component is non-empty, extended by `.` and a plain suffix, has that
      suffix as its extension. */
  lemma ExtNameAppended(path: string, suffix: string)
    requires path != [] && path[|path| - 1] != '/'
    requires forall k :: 0 <= k < |suffix| ==> suffix[k] != '.' && suffix[k] != '/'
    ensures ExtName(path + "." + suffix) == "." + suffix
  {
    var t := "." + suffix;
    assert path + "." + suffix == path + t;
    BaseNameAppend(path, t);
    var base := BaseName(path);
    LastIndexAt(base + t, '.', |base|);
    assert (base + t)[|base|..] == t;
  }

  /** A path whose last component has no `.` has no extension. */
  lemma ExtNameNone(path: string)
    requires forall k :: 0 <= k < |BaseName(path)| ==> BaseName(path)[k] != '.'
    ensures ExtName(path) == ""
  {
  }

  /** The first parser of the list whose extensions include `ext`. */
  function ParserFor(parsers: seq<Parser>, ext: string): Option<Parser>
  {
    if parsers == [] then None
    else if ext in parsers[0].extensions then Some(parsers[0])
    else ParserFor(parsers[1..], ext)
  }

  /**
   * No parser is found exactly when no parser takes the extension; a parser found is the
   * leftmost one that takes it.
   */
  lemma {:induction false} ParserForLeftmost(parsers: seq<Parser>, ext: string)
    ensures ParserFor(parsers, ext).None? <==>
              forall i :: 0 <= i < |parsers| ==> ext !in parsers[i].extensions
    ensures ParserFor(parsers, ext).Some? ==>
              exists i :: 0 <= i < |parsers| && ParserFor(parsers, ext).value == parsers[i]
                          && ext in parsers[i].extensions
                          && forall j :: 0 <= j < i ==> ext !in parsers[j].extensions
  {
    if parsers != [] && ext !in parsers[0].extensions {
      var rest := parsers[1..];
      ParserForLeftmost(rest, ext);
      assert forall i :: 0 < i < |parsers| ==> parsers[i] == rest[i - 1];
      if ParserFor(rest, ext).Some? {
        var i :| 0 <= i < |rest| && ParserFor(rest, ext).value == rest[i]
                 && ext in rest[i].extensions
                 && forall j :: 0 <= j < i ==> ext !in rest[j].extensions;
        assert parsers[i + 1] == rest[i];
      } else {
        forall i | 0 <= i < |parsers|
          ensures ext !in parsers[i].extensions
        {
          if i > 0 {
            assert parsers[i] == rest[i - 1];
          }
        }
      }
    }
  }

  /** The parser for a file: the first parser that takes the file's extension, if any. */
  method GetParser(parsers: seq<Parser>, filePath: string) returns (r: Option<Parser>)
    ensures r == ParserFor(parsers, ExtName(filePath))
  {
    var ext := ExtName(filePath);
    for i := 0 to |parsers|
      invariant ParserFor(parsers[i..], ext) == ParserFor(parsers, ext)
    {
      var supportedExtensions := parsers[i].extensions;
      if ext in supportedExtensions {
        return Some(parsers[i]);
      }
      assert parsers[i..][1..] == parsers[i + 1..];
    }
    return None;
  }

  /** The extensions of all parsers, in registry order, repeats included. */
  function AllExtensions(parsers: seq<Parser>): seq<string>
  {
    if parsers == [] then []
    else AllExtensions(parsers[..|parsers| - 1]) + parsers[|parsers| - 1].extensions
  }

  /** Each value of `s` at most once. */
  predicate NoDuplicates<T(==)>(s: seq<T>)
  {
    forall j, k :: 0 <= j < k < |s| ==> s[j] != s[k]
  }

  /** The values of `s` in the order they first occur, each once, as a set keeps them. */
  function Dedupe(s: seq<string>): (r: seq<string>)
    ensures forall x :: x in r <==> x in s
    ensures NoDuplicates(r)
  {
    if s == [] then []
    else
      var d := Dedupe(s[..|s| - 1]);
      if s[|s| - 1] in d then d else d + [s[|s| - 1]]
  }

  /** Dedupe keeps first occurrences in order: a value listed earlier first occurs earlier. */
  lemma {:induction false} DedupeOrder(s: seq<string>, j: nat, k: nat)
    requires j < k < |Dedupe(s)|
    ensures FirstIndex(s, Dedupe(s)[j]) < FirstIndex(s, Dedupe(s)[k])
  {
    var init, last := s[..|s| - 1], s[|s| - 1];
    var d := Dedupe(init);
    var x, y := Dedupe(s)[j], Dedupe(s)[k];
    assert s == init + [last];
    if k < |d| {
      DedupeOrder(init, j, k);
      assert FirstIndex(s, x) == FirstIndex(init, x);
      assert FirstIndex(s, y) == FirstIndex(init, y);
    } else {
      assert y == last && last !in init;
      assert FirstIndex(s, x) == FirstIndex(init, x);
    }
  }

  /** A list without repeats is its own deduplication. */
  lemma {:induction false} DedupeUnique(s: seq<string>)
    requires NoDuplicates(s)
    ensures Dedupe(s) == s
  {
    if s != [] {
      var init := s[..|s| - 1];
      DedupeUnique(init);
      assert s[|s| - 1] !in init;
      assert init + [s[|s| - 1]] == s;
    }
  }

  /** Deduplicating twice changes nothing more. */
  lemma DedupeIdempotent(s: seq<string>)
    ensures Dedupe(Dedupe(s)) == Dedupe(s)
  {
    DedupeUnique(Dedupe(s));
  }

  /**
   * The supported extensions: every parser's extensions in registry order, with repeats
   * removed and the first occurrence kept.
   */
  method GetSupportedExtensions(parsers: seq<Parser>) returns (r: seq<string>)
    ensures r == Dedupe(AllExtensions(parsers))
  {
    var extensions: seq<string> := [];
    for i := 0 to |parsers|
      invariant extensions == AllExtensions(parsers[..i])
    {
      assert parsers[..i + 1][..i] == parsers[..i];
      extensions := extensions + parsers[i].extensions;
    }
    assert parsers[..|parsers|] == parsers;
    r := [];
    for j := 0 to |extensions|
      invariant r == Dedupe(extensions[..j])
    {
      assert extensions[..j + 1][..j] == extensions[..j];
      if extensions[j] !in r {
        r := r + [extensions[j]];
      }
    }
    assert extensions[..|extensions|] == extensions;
  }

  /** An extension is listed as supported exactly when some parser takes it, so exactly when
      the lookup for a file with that extension finds a parser. */
  lemma {:induction false} SupportedIffSomeParser(parsers: seq<Parser>, ext: string)
    ensures ext in Dedupe(AllExtensions(parsers))
            <==> exists i :: 0 <= i < |parsers| && ext in parsers[i].extensions
  {
    if parsers != [] {
      var init := parsers[..|parsers| - 1];
      SupportedIffSomeParser(init, ext);
      if ext in AllExtensions(init) {
        var i :| 0 <= i < |init| && ext in init[i].extensions;
        assert parsers[i] == init[i];
      }
      if exists i :: 0 <= i < |parsers| && ext in parsers[i].extensions {
        var i :| 0 <= i < |parsers| && ext in parsers[i].extensions;
        if i < |init| {
          assert init[i] == parsers[i];
        }
      }
    }
  }

  /** The language of each parser, one per parser and in registry order. */
  function GetSupportedLanguages(parsers: seq<Parser>): (r: seq<string>)
    ensures |r| == |parsers| && forall i :: 0 <= i < |parsers| ==> r[i] == parsers[i].language
  {
    seq(|parsers|, i requires 0 <= i < |parsers| => parsers[i].language)
  }

  /** `ext` without its first character (`.ts` gives `ts`); the empty string stays empty. */
  function Stem(ext: string): (r: string)
    ensures |ext| > 0 ==> r == ext[1..] && |r| == |ext| - 1
    ensures |ext| == 0 ==> r == []
  {
    if |ext| == 0 then "" else ext[1..]
  }

  /** The stems of a list of extensions. */
  function Stems(exts: seq<string>): (r: seq<string>)
    ensures |r| == |exts| && forall i :: 0 <= i < |exts| ==> r[i] == Stem(exts[i])
  {
    seq(|exts|, i requires 0 <= i < |exts| => Stem(exts[i]))
  }

  /** The parts separated by `sep`. */
  function Join(parts: seq<string>, sep: char): string
  {
    if parts == [] then ""
    else if |parts| == 1 then parts[0]
    else parts[0] + [sep] + Join(parts[1..], sep)
  }

  /** `s` cut at every `sep`. */
  function Split(s: string, sep: char): (r: seq<string>)
    decreases |s|
    ensures r != []
  {
    if sep !in s then [s]
    else
      var k := FirstIndex(s, sep);
      [s[..k]] + Split(s[k + 1..], sep)
  }

  /** Cutting text that starts with a separator-free part: that part, then the rest's cuts. */
  lemma SplitFirst(p: string, sep: char, rest: string)
    requires sep !in p
    ensures Split(p + [sep] + rest, sep) == [p] + Split(rest, sep)
  {
    var s := p + [sep] + rest;
    assert forall j :: 0 <= j < |p| ==> s[j] == p[j];
    FirstIndexAt(s, sep, |p|);
    assert s[..|p|] == p;
    assert s[|p| + 1..] == rest;
  }

  /** Cutting a joined list at the separator gives the list back, when no part holds it. */
  lemma {:induction false} SplitJoin(parts: seq<string>, sep: char)
    requires parts != []
    requires forall i :: 0 <= i < |parts| ==> sep !in parts[i]
    ensures Split(Join(parts, sep), sep) == parts
  {
    if |parts| > 1 {
      SplitFirst(parts[0], sep, Join(parts[1..], sep));
      SplitJoin(parts[1..], sep);
      assert [parts[0]] + parts[1..] == parts;
    }
  }

  /** The glob pattern for a list of extensions: any directory, then `*.{`, the stems
      joined by `,`, and `}`. */
  function Glob(exts: seq<string>): string
  {
    "**/*.{" + Join(Stems(exts), ',') + "}"
  }

  /** The glob pattern that finds every file some parser supports. */
  method GetGlobPattern(parsers: seq<Parser>) returns (pattern: string)
    ensures pattern == Glob(Dedupe(AllExtensions(parsers)))
  {
    var extensions := GetSupportedExtensions(parsers);
    var extWithoutDot := seq(|extensions|, i requires 0 <= i < |extensions| =>
      Stem(extensions[i]));
    pattern := "**/*.{" + Join(extWithoutDot, ',') + "}";
  }

  /**
   * The glob pattern opens with its six-character prefix, closes with `}`, and what lies between cut at
   * the commas is the list of stems, when there is at least one extension and none holds a
   * comma.
   */
  lemma GlobStems(exts: seq<string>)
    requires exts != []
    requires forall i :: 0 <= i < |exts| ==> ',' !in exts[i]
    ensures |Glob(exts)| >= 7 && Glob(exts)[..6] == "**/*.{" && Glob(exts)[|Glob(exts)| - 1] == '}'
    ensures Split(Glob(exts)[6..|Glob(exts)| - 1], ',') == Stems(exts)
  {
    var body := Join(Stems(exts), ',');
    forall i | 0 <= i < |exts|
      ensures ',' !in Stems(exts)[i]
    {
      if |exts[i]| > 0 {
        assert forall k :: 0 <= k < |exts[i][1..]| ==> exts[i][1..][k] == exts[i][k + 1];
      }
    }
    SplitJoin(Stems(exts), ',');
    assert Glob(exts)[6..|Glob(exts)| - 1] == body;
  }

  /** The registry's extensions, in order. */
  lemma RegistryAllExtensions()
    ensures AllExtensions(Registry) == [".ts", ".tsx", ".js", ".jsx"]
  {
    assert Registry[..0] == [];
  }

  /** No extension of the registry is repeated. */
  lemma RegistryNoDuplicates()
    ensures NoDuplicates([".ts", ".tsx", ".js", ".jsx"])
  {
    var exts := [".ts", ".tsx", ".js", ".jsx"];
    forall j, k | 0 <= j < k < 4
      ensures exts[j] != exts[k]
    {
      assert |exts[j]| != |exts[k]| || exts[j][1] != exts[k][1];
    }
  }

  /** The registry's extensions, each listed once. */
  lemma RegistryExtensions()
    ensures Dedupe(AllExtensions(Registry)) == [".ts", ".tsx", ".js", ".jsx"]
  {
    RegistryAllExtensions();
    RegistryNoDuplicates();
    DedupeUnique([".ts", ".tsx", ".js", ".jsx"]);
  }

  /** Four parts joined. */
  lemma JoinFour(a: string, b: string, c: string, d: string, sep: char)
    ensures Join([a, b, c, d], sep) == a + [sep] + b + [sep] + c + [sep] + d
  {
    var parts := [a, b, c, d];
    assert parts[1..] == [b, c, d] && parts[1..][1..] == [c, d] && parts[1..][1..][1..] == [d];
    var cd := c + [sep] + d;
    assert Join([c, d], sep) == cd;
    assert Join([b, c, d], sep) == b + [sep] + cd;
    assert a + [sep] + (b + [sep] + cd) == a + [sep] + b + [sep] + cd;
    assert a + [sep] + b + [sep] + cd == a + [sep] + b + [sep] + c + [sep] + d;
  }

  /** The registry's glob pattern matches `.ts`, `.tsx`, `.js` and `.jsx` files in any
      directory. */
  lemma RegistryGlob()
    ensures Glob(Dedupe(AllExtensions(Registry))) == "**/*.{ts,tsx,js,jsx}"
  {
    RegistryExtensions();
    assert Stems([".ts", ".tsx", ".js", ".jsx"]) == ["ts", "tsx", "js", "jsx"];
    JoinFour("ts", "tsx", "js", "jsx", ',');
  }

  /** The registry knows one language, TypeScript. */
  lemma RegistryLanguages()
    ensures GetSupportedLanguages(Registry) == ["TypeScript"]
  {
  }
}
