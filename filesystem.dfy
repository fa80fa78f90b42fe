/** The part of the filesystem the namespace command sees: a map from file path to
    contents, the set of existing directories, the `replaceIn` primitive, and the
    `Finder::create()->in($dir)->contains($needle)->name('*.php')` selection. */
module Filesystem {
  import opened PhpStrings

  type FileMap = map<string, string>

  datatype Option<+T> = None | Some(value: T)

  /** The exceptions that abort the command: Finder's `in` on a missing directory,
      and `Filesystem::get` on a path that exists but is not a file. */
  datatype Error = DirectoryNotFound(dir: string) | FileNotFound(path: string)

  /** The files after one step of the command, and the exception it raised, if any.
      Files written before an exception keep their new contents. */
  datatype Step = Step(files: FileMap, failure: Option<Error>)

  /** `replaceIn($path, $search, $replace)`: if the path exists, its contents become
      `str_replace($search, $replace, $contents)`; a missing path is skipped; a path
      that is a directory passes the `exists` test and then fails to be read. */
  function ReplaceInFiles(fs: FileMap, dirs: set<string>, path: string,
                          search: seq<string>, replace: seq<string>): (st: Step)
    ensures st.files.Keys == fs.Keys
    ensures forall q :: q in fs && q != path ==> st.files[q] == fs[q]
    ensures path in fs ==> st.files[path] == StrReplaceArray(fs[path], search, replace) && st.failure == None
    ensures path !in fs ==> st.files == fs
    ensures st.failure.Some? <==> path !in fs && path in dirs
  {
    if path in fs then Step(fs[path := StrReplaceArray(fs[path], search, replace)], None)
    else if path in dirs then Step(fs, Some(FileNotFound(path)))
    else Step(fs, None)
  }

  /** `p` lies somewhere below directory `dir`, at any depth. */
  predicate InDirectory(p: string, dir: string)
  {
    |dir| + 1 < |p| && p[..|dir| + 1] == dir + "/"
  }

  /** Finder's `name('*.php')`. */
  predicate HasPhpSuffix(p: string)
  {
    |p| >= 4 && p[|p| - 4..] == ".php"
  }

  /** The files `Finder::create()->in($dir)->contains($needle)->name('*.php')` yields. */
  function FinderFiles(fs: FileMap, dir: string, needle: string): (found: set<string>)
    ensures found <= fs.Keys
  {
    set p | p in fs && InDirectory(p, dir) && HasPhpSuffix(p) && Contains(fs[p], needle)
  }

  /** Every selected file rewritten with the same search and replace arrays. */
  function RewriteSelected(fs: FileMap, selected: set<string>,
                           search: seq<string>, replace: seq<string>): FileMap
  {
    map p | p in fs :: if p in selected then StrReplaceArray(fs[p], search, replace) else fs[p]
  }

  /** A Finder loop that calls `replaceIn` on every file found. Each file found
      exists, so only the Finder's own missing-directory error can occur. */
  function FinderPass(fs: FileMap, dirs: set<string>, dir: string, needle: string,
                      search: seq<string>, replace: seq<string>): (st: Step)
    ensures st.files.Keys == fs.Keys
    ensures forall p :: p in fs && !(InDirectory(p, dir) && HasPhpSuffix(p) && Contains(fs[p], needle))
              ==> st.files[p] == fs[p]
    ensures forall p :: p in fs && st.files[p] != fs[p]
              ==> st.failure == None && st.files[p] == StrReplaceArray(fs[p], search, replace)
    ensures dir in dirs ==>
              forall p :: p in fs && InDirectory(p, dir) && HasPhpSuffix(p) && Contains(fs[p], needle)
                ==> st.files[p] == StrReplaceArray(fs[p], search, replace)
    ensures st.failure.Some? <==> dir !in dirs
  {
    if dir !in dirs then Step(fs, Some(DirectoryNotFound(dir)))
    else Step(RewriteSelected(fs, FinderFiles(fs, dir, needle), search, replace), None)
  }

  /** A Finder pass along a rewrite that changes nothing changes nothing. */
  lemma FinderPassWithItself(fs: FileMap, dirs: set<string>, dir: string, needle: string, terms: seq<string>)
    ensures FinderPass(fs, dirs, dir, needle, terms, terms).files == fs
  {
    forall p | p in fs ensures StrReplaceArray(fs[p], terms, terms) == fs[p] {
      ReplaceArrayWithItself(fs[p], terms);
    }
    if dir in dirs {
      assert RewriteSelected(fs, FinderFiles(fs, dir, needle), terms, terms) == fs;
    }
  }

  /** `replaceIn` with equal search and replace arrays changes nothing. */
  lemma ReplaceInWithItself(fs: FileMap, dirs: set<string>, path: string, terms: seq<string>)
    ensures ReplaceInFiles(fs, dirs, path, terms, terms).files == fs
  {
    if path in fs {
      ReplaceArrayWithItself(fs[path], terms);
      assert fs[path := fs[path]] == fs;
    }
  }
}
