/** What each pass of the `basetree:namespace` command does to the files, as
    functions of the files before it, and what the whole command does. `root` is the
    current root namespace (already trimmed), `name` the namespace asked for. */
module NamespacePasses {
  import opened PhpStrings
  import opened Filesystem
  import opened Paths

  /** The terms the app-directory pass looks for when built from `root`, and writes
      when built from `name`: the declaration `namespace R;` and the prefix `R\`. */
  function AppDirectoryTerms(ns: string): seq<string>
  {
    ["namespace " + ns + ";", ns + "\\"]
  }

  /** The three sub-namespaces named in `bootstrap/app.php`. */
  function BootstrapTerms(ns: string): seq<string>
  {
    [ns + "\\Http", ns + "\\Console", ns + "\\Exceptions"]
  }

  /** The provider and controller namespaces in `config/app.php`. */
  function AppConfigTerms(ns: string): seq<string>
  {
    [ns + "\\Providers", ns + "\\Http\\Controllers\\"]
  }

  /** The user model in `config/auth.php` and `config/services.php`. */
  function UserTerm(ns: string): string
  {
    ns + "\\User"
  }

  /** The PSR-4 key in `composer.json`: the namespace with its backslashes doubled,
      followed by a doubled separator. It is the JSON-escaped form of `R\`, the
      prefix the app-directory pass rewrites. */
  function ComposerTerm(ns: string): (t: string)
    ensures t == EscapeBackslashes(ns + [Backslash])
    ensures |t| == |ns| + multiset(ns)[Backslash] + 2
    ensures UnescapeBackslashes(t) == ns + "\\"
    ensures |t| >= 2 && t[|t| - 2..] == [Backslash, Backslash]
  {
    EscapeConcat(ns, [Backslash]);
    EscapeCons(Backslash, []);
    EscapeLength(ns);
    UnescapeEscape(ns + [Backslash]);
    assert [Backslash] + [] == [Backslash];
    assert EscapeBackslashes([]) == [];
    assert "\\\\" == [Backslash, Backslash];
    EscapeBackslashes(ns) + "\\\\"
  }

  /** `replaceNamespace` applied to one file's contents. */
  function ReplaceNamespaceText(x: string, root: string, name: string): string
  {
    StrReplaceArray(x, AppDirectoryTerms(root), AppDirectoryTerms(name))
  }

  /** `setAppDirectoryNamespace`. */
  function AppDirectoryPass(fs: FileMap, dirs: set<string>, env: Env, root: string, name: string): Step
  {
    FinderPass(fs, dirs, env.appPath, root, AppDirectoryTerms(root), AppDirectoryTerms(name))
  }

  /** `setBootstrapNamespaces`. */
  function BootstrapPass(fs: FileMap, dirs: set<string>, env: Env, root: string, name: string): Step
  {
    ReplaceInFiles(fs, dirs, GetBootstrapPath(env.bootstrapPath), BootstrapTerms(root), BootstrapTerms(name))
  }

  /** `setAppConfigNamespaces`. */
  function AppConfigPass(fs: FileMap, dirs: set<string>, env: Env, root: string, name: string): Step
  {
    ReplaceInFiles(fs, dirs, GetConfigPath(env.configPath, "app"), AppConfigTerms(root), AppConfigTerms(name))
  }

  /** `setAuthConfigNamespace`. */
  function AuthConfigPass(fs: FileMap, dirs: set<string>, env: Env, root: string, name: string): Step
  {
    ReplaceInFiles(fs, dirs, GetConfigPath(env.configPath, "auth"), [UserTerm(root)], [UserTerm(name)])
  }

  /** `setServicesConfigNamespace`. */
  function ServicesConfigPass(fs: FileMap, dirs: set<string>, env: Env, root: string, name: string): Step
  {
    ReplaceInFiles(fs, dirs, GetConfigPath(env.configPath, "services"), [UserTerm(root)], [UserTerm(name)])
  }

  /** `setConfigNamespaces`: the three configuration passes in order; an exception
      in one of them skips the rest. */
  function ConfigPass(fs: FileMap, dirs: set<string>, env: Env, root: string, name: string): Step
  {
    var s1 := AppConfigPass(fs, dirs, env, root, name);
    if s1.failure.Some? then s1 else
    var s2 := AuthConfigPass(s1.files, dirs, env, root, name);
    if s2.failure.Some? then s2 else
    ServicesConfigPass(s2.files, dirs, env, root, name)
  }

  /** `setComposerNamespace`. */
  function ComposerPass(fs: FileMap, dirs: set<string>, env: Env, root: string, name: string): Step
  {
    ReplaceInFiles(fs, dirs, GetComposerPath(env.basePath), [ComposerTerm(root)], [ComposerTerm(name)])
  }

  /** `setDatabaseFactoryNamespaces`: every bare occurrence of the root is replaced. */
  function FactoryPass(fs: FileMap, dirs: set<string>, env: Env, root: string, name: string): Step
  {
    FinderPass(fs, dirs, FactoriesPath(env.databasePath), root, [root], [name])
  }

  /** `handle`: the current root is the application namespace trimmed of
      backslashes, then the passes run in order until one raises an exception. */
  function HandleSpec(fs: FileMap, dirs: set<string>, env: Env, appNamespace: string, name: string): Step
  {
    RunPasses(fs, dirs, env, Trim(appNamespace), name)
  }

  /** The passes of `handle` in order, from `setAppDirectoryNamespace` to
      `setDatabaseFactoryNamespaces`. */
  function RunPasses(fs: FileMap, dirs: set<string>, env: Env, root: string, name: string): Step
  {
    var s1 := AppDirectoryPass(fs, dirs, env, root, name);
    if s1.failure.Some? then s1 else
    var s2 := BootstrapPass(s1.files, dirs, env, root, name);
    if s2.failure.Some? then s2 else
    var s3 := ConfigPass(s2.files, dirs, env, root, name);
    if s3.failure.Some? then s3 else
    var s4 := ComposerPass(s3.files, dirs, env, root, name);
    if s4.failure.Some? then s4 else
    FactoryPass(s4.files, dirs, env, root, name)
  }

  /** `replaceNamespace` first rewrites the declaration `namespace R;` and then every
      `R\` in the text that results. */
  lemma ReplaceNamespaceInOrder(x: string, root: string, name: string)
    ensures ReplaceNamespaceText(x, root, name)
         == StrReplace(StrReplace(x, "namespace " + root + ";", "namespace " + name + ";"), root + "\\", name + "\\")
  {
    ReplaceArrayPair(x, "namespace " + root + ";", root + "\\", "namespace " + name + ";", name + "\\");
  }

  /** The app-directory pass rewrites only PHP files below the app path whose contents
      contain the root; every other file, including a factory file outside the app
      path, keeps its contents. When the app path exists, every such file does become
      the `replaceNamespace` rewrite of its contents. */
  lemma AppDirectoryPassFrame(fs: FileMap, dirs: set<string>, env: Env, root: string, name: string, p: string)
    requires p in fs
    ensures var st := AppDirectoryPass(fs, dirs, env, root, name);
            p in st.files
            && (st.files[p] != fs[p] ==>
                  InDirectory(p, env.appPath) && HasPhpSuffix(p) && Contains(fs[p], root)
                  && st.files[p] == ReplaceNamespaceText(fs[p], root, name))
    ensures var st := AppDirectoryPass(fs, dirs, env, root, name);
            env.appPath in dirs && InDirectory(p, env.appPath) && HasPhpSuffix(p) && Contains(fs[p], root)
            ==> st.files[p] == ReplaceNamespaceText(fs[p], root, name)
  {
  }

  /** The factory pass replaces every occurrence of the root by the new name in each PHP
      file below the factories directory that contains the root, when that directory
      exists, and keeps every other file. */
  lemma FactoryPassFrame(fs: FileMap, dirs: set<string>, env: Env, root: string, name: string, p: string)
    requires p in fs
    ensures var st := FactoryPass(fs, dirs, env, root, name);
            var dir := FactoriesPath(env.databasePath);
            p in st.files
            && (st.files[p] != fs[p] ==>
                  InDirectory(p, dir) && HasPhpSuffix(p) && Contains(fs[p], root)
                  && st.files[p] == StrReplace(fs[p], root, name))
            && (dir in dirs && InDirectory(p, dir) && HasPhpSuffix(p) && Contains(fs[p], root)
                ==> st.files[p] == StrReplace(fs[p], root, name))
  {
    ReplaceArraySingle(fs[p], root, name);
  }

  /** The factory pass and the app-directory pass replace different things: text that
      holds the root but neither its declaration nor `R\` survives the app-directory
      rewrite and is changed by the factory rewrite. */
  lemma BareRootOnlyFactoryRewrites(x: string, root: string, name: string)
    requires root != [] && root != name
    requires Contains(x, root)
    requires !Contains(x, "namespace " + root + ";") && !Contains(x, root + "\\")
    ensures ReplaceNamespaceText(x, root, name) == x
    ensures StrReplaceArray(x, [root], [name]) != x
  {
    ReplaceArrayAbsent(x, AppDirectoryTerms(root), AppDirectoryTerms(name));
    ReplaceArraySingle(x, root, name);
    ReplaceUnchangedIff(x, root, name);
  }

  /** A `composer.json` that holds the escaped PSR-4 key of the current root holds
      the key of the new name after the composer pass. (It does not follow that the old
      key is gone: see `ComposerOldKeySurvives`.) */
  lemma ComposerPassWritesNewKey(fs: FileMap, dirs: set<string>, env: Env, root: string, name: string)
    requires GetComposerPath(env.basePath) in fs
    requires Contains(fs[GetComposerPath(env.basePath)], ComposerTerm(root))
    ensures var st := ComposerPass(fs, dirs, env, root, name);
            st.failure == None && Contains(st.files[GetComposerPath(env.basePath)], ComposerTerm(name))
  {
    var path := GetComposerPath(env.basePath);
    ReplaceArraySingle(fs[path], ComposerTerm(root), ComposerTerm(name));
    ReplaceInsertsReplacement(fs[path], ComposerTerm(root), ComposerTerm(name));
  }

  /** The old key is left behind whenever the new name ends with the current root, as in
      `App` to `MyApp`: the new key `MyApp\\` holds the old key `App\\`. */
  lemma ComposerOldKeySurvives(fs: FileMap, dirs: set<string>, env: Env, root: string, prefix: string)
    requires GetComposerPath(env.basePath) in fs
    requires Contains(fs[GetComposerPath(env.basePath)], ComposerTerm(root))
    ensures var st := ComposerPass(fs, dirs, env, root, prefix + root);
            Contains(st.files[GetComposerPath(env.basePath)], ComposerTerm(root))
  {
    var name := prefix + root;
    var path := GetComposerPath(env.basePath);
    ComposerPassWritesNewKey(fs, dirs, env, root, name);
    ComposerTermOfLongerName(prefix, root);
    ContainsTrans(ComposerPass(fs, dirs, env, root, name).files[path], ComposerTerm(name), ComposerTerm(root));
  }

  /** The key of a name ending with `root` ends with the key of `root`. */
  lemma ComposerTermOfLongerName(prefix: string, root: string)
    ensures Contains(ComposerTerm(prefix + root), ComposerTerm(root))
  {
    var b := root + [Backslash];
    EscapeConcat(prefix, b);
    assert (prefix + root) + [Backslash] == prefix + b;
    assert ComposerTerm(prefix + root) == EscapeBackslashes(prefix) + EscapeBackslashes(b);
    ContainsSuffix(EscapeBackslashes(prefix), EscapeBackslashes(b));
  }

  /** `replaceNamespace` does not remove every declaration of the old root: with the
      root `A\B` and the name `A`, the declaration `namespace A\B\B;` of a
      sub-namespace becomes `namespace A\B;`. */
  lemma ReplaceNamespaceCanLeaveDeclaration()
    ensures ReplaceNamespaceText("namespace A\\B\\B;", "A\\B", "A") == "namespace A\\B;"
  {
    var x, root, name := "namespace A\\B\\B;", "A\\B", "A";
    ReplaceNamespaceInOrder(x, root, name);
    assert "namespace " + root + ";" == "namespace A\\B;";
    assert "namespace " + name + ";" == "namespace A;";
    assert root + "\\" == "A\\B\\" && name + "\\" == "A\\";
    SubNamespaceDeclarationKept();
    SubNamespacePrefixReplaced();
  }

  /** The declaration `namespace A\B;` does not occur in `namespace A\B\B;`: the scan
      runs out after three steps. */
  lemma SubNamespaceDeclarationKept()
    ensures StrReplace("namespace A\\B\\B;", "namespace A\\B;", "namespace A;") == "namespace A\\B\\B;"
  {
    var x := "namespace A\\B\\B;";
    var decl := "namespace A\\B;";
    assert StrReplace(x[3..], decl, "namespace A;") == x[3..];
    assert x[2..][..|decl|][0] != decl[0];
    assert x[2..][1..] == x[3..];
    assert StrReplace(x[2..], decl, "namespace A;") == x[2..];
    assert x[1..][..|decl|][0] != decl[0];
    assert x[1..][1..] == x[2..];
    assert StrReplace(x[1..], decl, "namespace A;") == x[1..];
    assert x[..|decl|][13] != decl[13];
  }

  /** The prefix `A\B\` occurs once in `namespace A\B\B;`, after `namespace `. */
  lemma SubNamespacePrefixReplaced()
    ensures StrReplace("namespace A\\B\\B;", "A\\B\\", "A\\") == "namespace A\\B;"
  {
    assert "namespace A\\B\\B;" == "namespace " + "A\\B\\B;";
    ReplaceSkipsPrefix("namespace ", "A\\B\\B;", "A\\B\\", "A\\");
    var tail := "A\\B\\B;";
    assert tail[..4] == "A\\B\\";
    assert tail[4..] == "B;";
    assert StrReplace(tail, "A\\B\\", "A\\") == "A\\" + "B;";
  }

  lemma AppDirectoryPassWithItself(fs: FileMap, dirs: set<string>, env: Env, root: string)
    ensures AppDirectoryPass(fs, dirs, env, root, root).files == fs
  {
    FinderPassWithItself(fs, dirs, env.appPath, root, AppDirectoryTerms(root));
  }

  lemma BootstrapPassWithItself(fs: FileMap, dirs: set<string>, env: Env, root: string)
    ensures BootstrapPass(fs, dirs, env, root, root).files == fs
  {
    ReplaceInWithItself(fs, dirs, GetBootstrapPath(env.bootstrapPath), BootstrapTerms(root));
  }

  lemma ConfigPassWithItself(fs: FileMap, dirs: set<string>, env: Env, root: string)
    ensures ConfigPass(fs, dirs, env, root, root).files == fs
  {
    var c1 := AppConfigPass(fs, dirs, env, root, root);
    var c2 := AuthConfigPass(c1.files, dirs, env, root, root);
    ReplaceInWithItself(fs, dirs, GetConfigPath(env.configPath, "app"), AppConfigTerms(root));
    ReplaceInWithItself(c1.files, dirs, GetConfigPath(env.configPath, "auth"), [UserTerm(root)]);
    ReplaceInWithItself(c2.files, dirs, GetConfigPath(env.configPath, "services"), [UserTerm(root)]);
  }

  lemma ComposerPassWithItself(fs: FileMap, dirs: set<string>, env: Env, root: string)
    ensures ComposerPass(fs, dirs, env, root, root).files == fs
  {
    ReplaceInWithItself(fs, dirs, GetComposerPath(env.basePath), [ComposerTerm(root)]);
  }

  lemma FactoryPassWithItself(fs: FileMap, dirs: set<string>, env: Env, root: string)
    ensures FactoryPass(fs, dirs, env, root, root).files == fs
  {
    FinderPassWithItself(fs, dirs, FactoriesPath(env.databasePath), root, [root]);
  }

  /** If the namespace asked for is the current root, every search term equals its
      replacement and the command leaves every file's contents as they were (it may
      still raise an exception for a missing directory). This alone does not make a
      second run a no-op: the next root is the trimmed name, which differs from a name
      with a backslash at either end. */
  lemma SameNameLeavesFilesUnchanged(fs: FileMap, dirs: set<string>, env: Env, appNamespace: string)
    ensures HandleSpec(fs, dirs, env, appNamespace, Trim(appNamespace)).files == fs
  {
    RunPassesWithItself(fs, dirs, env, Trim(appNamespace));
  }

  lemma RunPassesWithItself(fs: FileMap, dirs: set<string>, env: Env, root: string)
    ensures RunPasses(fs, dirs, env, root, root).files == fs
  {
    var s1 := AppDirectoryPass(fs, dirs, env, root, root);
    var s2 := BootstrapPass(s1.files, dirs, env, root, root);
    var s3 := ConfigPass(s2.files, dirs, env, root, root);
    var s4 := ComposerPass(s3.files, dirs, env, root, root);
    var s5 := FactoryPass(s4.files, dirs, env, root, root);
    AppDirectoryPassWithItself(fs, dirs, env, root);
    BootstrapPassWithItself(s1.files, dirs, env, root);
    ConfigPassWithItself(s2.files, dirs, env, root);
    ComposerPassWithItself(s3.files, dirs, env, root);
    FactoryPassWithItself(s4.files, dirs, env, root);
    var st := RunPasses(fs, dirs, env, root, root);
    if s1.failure.Some? {
      assert st == s1;
    } else if s2.failure.Some? {
      assert st == s2;
    } else if s3.failure.Some? {
      assert st == s3;
    } else if s4.failure.Some? {
      assert st == s4;
    } else {
      assert st == s5;
    }
  }

  /** The files the command may change: PHP files below the app path, the bootstrap
      file, the three configuration files, `composer.json`, and PHP files below the
      factories directory. No file is created or deleted. */
  predicate IsTarget(p: string, env: Env)
  {
    || (InDirectory(p, env.appPath) && HasPhpSuffix(p))
    || p == GetBootstrapPath(env.bootstrapPath)
    || p == GetConfigPath(env.configPath, "app")
    || p == GetConfigPath(env.configPath, "auth")
    || p == GetConfigPath(env.configPath, "services")
    || p == GetComposerPath(env.basePath)
    || (InDirectory(p, FactoriesPath(env.databasePath)) && HasPhpSuffix(p))
  }

  /** `after` has the same files as `before`, and only targets may differ. */
  ghost predicate TouchesOnlyTargets(before: FileMap, after: FileMap, env: Env)
  {
    after.Keys == before.Keys
    && forall p :: p in before && !IsTarget(p, env) ==> after[p] == before[p]
  }

  /** The app-directory pass changes only PHP files below the app path. */
  lemma AppDirectoryPassTouchesOnlyTargets(fs: FileMap, dirs: set<string>, env: Env, root: string, name: string)
    ensures var st := AppDirectoryPass(fs, dirs, env, root, name);
            st.files.Keys == fs.Keys
            && forall p :: p in fs && !(InDirectory(p, env.appPath) && HasPhpSuffix(p)) ==> st.files[p] == fs[p]
    ensures TouchesOnlyTargets(fs, AppDirectoryPass(fs, dirs, env, root, name).files, env)
  {
  }

  /** The bootstrap pass changes only the bootstrap file. */
  lemma BootstrapPassTouchesOnlyTargets(fs: FileMap, dirs: set<string>, env: Env, root: string, name: string)
    ensures var st := BootstrapPass(fs, dirs, env, root, name);
            st.files.Keys == fs.Keys
            && forall p :: p in fs && !(p == GetBootstrapPath(env.bootstrapPath)) ==> st.files[p] == fs[p]
    ensures TouchesOnlyTargets(fs, BootstrapPass(fs, dirs, env, root, name).files, env)
  {
  }

  /** The app-config pass changes only `config/app.php`. */
  lemma AppConfigPassTouchesOnlyTargets(fs: FileMap, dirs: set<string>, env: Env, root: string, name: string)
    ensures var st := AppConfigPass(fs, dirs, env, root, name);
            st.files.Keys == fs.Keys
            && forall p :: p in fs && !(p == GetConfigPath(env.configPath, "app")) ==> st.files[p] == fs[p]
    ensures TouchesOnlyTargets(fs, AppConfigPass(fs, dirs, env, root, name).files, env)
  {
  }

  /** The auth-config pass changes only `config/auth.php`. */
  lemma AuthConfigPassTouchesOnlyTargets(fs: FileMap, dirs: set<string>, env: Env, root: string, name: string)
    ensures var st := AuthConfigPass(fs, dirs, env, root, name);
            st.files.Keys == fs.Keys
            && forall p :: p in fs && !(p == GetConfigPath(env.configPath, "auth")) ==> st.files[p] == fs[p]
    ensures TouchesOnlyTargets(fs, AuthConfigPass(fs, dirs, env, root, name).files, env)
  {
  }

  /** The services-config pass changes only `config/services.php`. */
  lemma ServicesConfigPassTouchesOnlyTargets(fs: FileMap, dirs: set<string>, env: Env, root: string, name: string)
    ensures var st := ServicesConfigPass(fs, dirs, env, root, name);
            st.files.Keys == fs.Keys
            && forall p :: p in fs && !(p == GetConfigPath(env.configPath, "services")) ==> st.files[p] == fs[p]
    ensures TouchesOnlyTargets(fs, ServicesConfigPass(fs, dirs, env, root, name).files, env)
  {
  }

  /** The composer pass changes only `composer.json`. */
  lemma ComposerPassTouchesOnlyTargets(fs: FileMap, dirs: set<string>, env: Env, root: string, name: string)
    ensures var st := ComposerPass(fs, dirs, env, root, name);
            st.files.Keys == fs.Keys
            && forall p :: p in fs && !(p == GetComposerPath(env.basePath)) ==> st.files[p] == fs[p]
    ensures TouchesOnlyTargets(fs, ComposerPass(fs, dirs, env, root, name).files, env)
  {
  }

  /** The factory pass changes only PHP files below the factories directory. */
  lemma FactoryPassTouchesOnlyTargets(fs: FileMap, dirs: set<string>, env: Env, root: string, name: string)
    ensures var st := FactoryPass(fs, dirs, env, root, name);
            st.files.Keys == fs.Keys
            && forall p :: p in fs && !(InDirectory(p, FactoriesPath(env.databasePath)) && HasPhpSuffix(p)) ==> st.files[p] == fs[p]
    ensures TouchesOnlyTargets(fs, FactoryPass(fs, dirs, env, root, name).files, env)
  {
  }

  lemma TouchesOnlyTargetsTrans(a: FileMap, b: FileMap, c: FileMap, env: Env)
    requires TouchesOnlyTargets(a, b, env) && TouchesOnlyTargets(b, c, env)
    ensures TouchesOnlyTargets(a, c, env)
  {
  }

  /** The three configuration passes together change only the three configuration
      files. */
  lemma ConfigPassTouchesOnlyTargets(fs: FileMap, dirs: set<string>, env: Env, root: string, name: string)
    ensures var st := ConfigPass(fs, dirs, env, root, name);
            st.files.Keys == fs.Keys
            && forall p :: p in fs && !(p == GetConfigPath(env.configPath, "app")
                                        || p == GetConfigPath(env.configPath, "auth")
                                        || p == GetConfigPath(env.configPath, "services"))
                 ==> st.files[p] == fs[p]
    ensures TouchesOnlyTargets(fs, ConfigPass(fs, dirs, env, root, name).files, env)
  {
    var c1 := AppConfigPass(fs, dirs, env, root, name);
    var c2 := AuthConfigPass(c1.files, dirs, env, root, name);
    var c3 := ServicesConfigPass(c2.files, dirs, env, root, name);
    AppConfigPassTouchesOnlyTargets(fs, dirs, env, root, name);
    AuthConfigPassTouchesOnlyTargets(c1.files, dirs, env, root, name);
    ServicesConfigPassTouchesOnlyTargets(c2.files, dirs, env, root, name);
    TouchesOnlyTargetsTrans(fs, c1.files, c2.files, env);
    TouchesOnlyTargetsTrans(fs, c2.files, c3.files, env);
  }

  /** The command creates and deletes no file and changes only its target files,
      whether it finishes or stops at an exception. */
  lemma HandleFrame(fs: FileMap, dirs: set<string>, env: Env, appNamespace: string, name: string)
    ensures TouchesOnlyTargets(fs, HandleSpec(fs, dirs, env, appNamespace, name).files, env)
  {
    RunPassesFrame(fs, dirs, env, Trim(appNamespace), name);
  }

  lemma RunPassesFrame(fs: FileMap, dirs: set<string>, env: Env, root: string, name: string)
    ensures TouchesOnlyTargets(fs, RunPasses(fs, dirs, env, root, name).files, env)
  {
    var s1 := AppDirectoryPass(fs, dirs, env, root, name);
    var s2 := BootstrapPass(s1.files, dirs, env, root, name);
    var s3 := ConfigPass(s2.files, dirs, env, root, name);
    var s4 := ComposerPass(s3.files, dirs, env, root, name);
    var s5 := FactoryPass(s4.files, dirs, env, root, name);
    AppDirectoryPassTouchesOnlyTargets(fs, dirs, env, root, name);
    BootstrapPassTouchesOnlyTargets(s1.files, dirs, env, root, name);
    ConfigPassTouchesOnlyTargets(s2.files, dirs, env, root, name);
    ComposerPassTouchesOnlyTargets(s3.files, dirs, env, root, name);
    FactoryPassTouchesOnlyTargets(s4.files, dirs, env, root, name);
    TouchesOnlyTargetsTrans(fs, s1.files, s2.files, env);
    TouchesOnlyTargetsTrans(fs, s2.files, s3.files, env);
    TouchesOnlyTargetsTrans(fs, s3.files, s4.files, env);
    TouchesOnlyTargetsTrans(fs, s4.files, s5.files, env);
    var st := RunPasses(fs, dirs, env, root, name);
    if s1.failure.Some? {
      assert st == s1;
    } else if s2.failure.Some? {
      assert st == s2;
    } else if s3.failure.Some? {
      assert st == s3;
    } else if s4.failure.Some? {
      assert st == s4;
    } else {
      assert st == s5;
    }
  }
}
