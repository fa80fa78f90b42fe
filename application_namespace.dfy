/** The `basetree:namespace` console command as an object: it holds the files it
    rewrites in place and the current root namespace, which `Handle` sets. */
module Console {
  import opened PhpStrings
  import opened Filesystem
  import opened Paths
  import opened NamespacePasses

  class ApplicationNamespace {
    /** The text files on disk, by path; the passes rewrite them in place. */
    var files: FileMap
    /** The directories that exist. */
    const dirs: set<string>
    /** The container's paths. */
    const env: Env
    /** The `name` argument: the namespace asked for. */
    const name: string
    /** `$currentRoot`. */
    var currentRoot: string

    constructor (files: FileMap, dirs: set<string>, env: Env, name: string)
      ensures this.files == files && this.dirs == dirs && this.env == env && this.name == name
      ensures currentRoot == ""
    {
      this.files := files;
      this.dirs := dirs;
      this.env := env;
      this.name := name;
      currentRoot := "";
    }

    /** `handle`: sets the current root from the application namespace and runs the
        passes in order; an exception stops the command, keeping what was written. */
    method Handle(appNamespace: string) returns (failure: Option<Error>)
      modifies this
      ensures currentRoot == Trim(appNamespace)
      ensures Step(files, failure) == HandleSpec(old(files), dirs, env, appNamespace, name)
      ensures files.Keys == old(files).Keys
      ensures forall p :: p in old(files) && files[p] != old(files)[p] ==> IsTarget(p, env)
      ensures name == currentRoot ==> files == old(files)
    {
      HandleFrame(files, dirs, env, appNamespace, name);
      SameNameLeavesFilesUnchanged(files, dirs, env, appNamespace);
      currentRoot := Trim(appNamespace);
      failure := SetAppDirectoryNamespace();
      if failure.Some? {
        return;
      }
      failure := SetBootstrapNamespaces();
      if failure.Some? {
        return;
      }
      failure := SetConfigNamespaces();
      if failure.Some? {
        return;
      }
      failure := SetComposerNamespace();
      if failure.Some? {
        return;
      }
      failure := SetDatabaseFactoryNamespaces();
    }

    /** `setAppDirectoryNamespace`: `replaceNamespace` on every PHP file below the app
        path that contains the current root. */
    method SetAppDirectoryNamespace() returns (failure: Option<Error>)
      modifies this`files
      ensures Step(files, failure) == AppDirectoryPass(old(files), dirs, env, currentRoot, name)
    {
      if env.appPath !in dirs {
        return Some(DirectoryNotFound(env.appPath));
      }
      var found := FinderFiles(files, env.appPath, currentRoot);
      var remaining := found;
      while remaining != {}
        invariant remaining <= found
        invariant files.Keys == old(files).Keys
        invariant forall p :: p in files ==>
          files[p] == if p in found - remaining
                      then ReplaceNamespaceText(old(files)[p], currentRoot, name)
                      else old(files)[p]
        decreases remaining
      {
        var p :| p in remaining;
        var _ := ReplaceNamespace(p);
        remaining := remaining - {p};
      }
      assert files == RewriteSelected(old(files), found, AppDirectoryTerms(currentRoot), AppDirectoryTerms(name));
      failure := None;
    }

    /** `replaceNamespace($path)`. */
    method ReplaceNamespace(path: string) returns (failure: Option<Error>)
      modifies this`files
      ensures Step(files, failure)
           == ReplaceInFiles(old(files), dirs, path, AppDirectoryTerms(currentRoot), AppDirectoryTerms(name))
    {
      failure := ReplaceIn(path, AppDirectoryTerms(currentRoot), AppDirectoryTerms(name));
    }

    /** `setBootstrapNamespaces`. */
    method SetBootstrapNamespaces() returns (failure: Option<Error>)
      modifies this`files
      ensures Step(files, failure) == BootstrapPass(old(files), dirs, env, currentRoot, name)
    {
      failure := ReplaceIn(GetBootstrapPath(env.bootstrapPath), BootstrapTerms(currentRoot), BootstrapTerms(name));
    }

    /** `setConfigNamespaces`. */
    method SetConfigNamespaces() returns (failure: Option<Error>)
      modifies this`files
      ensures Step(files, failure) == ConfigPass(old(files), dirs, env, currentRoot, name)
    {
      failure := SetAppConfigNamespaces();
      if failure.Some? {
        return;
      }
      failure := SetAuthConfigNamespace();
      if failure.Some? {
        return;
      }
      failure := SetServicesConfigNamespace();
    }

    /** `setAppConfigNamespaces`. */
    method SetAppConfigNamespaces() returns (failure: Option<Error>)
      modifies this`files
      ensures Step(files, failure) == AppConfigPass(old(files), dirs, env, currentRoot, name)
    {
      failure := ReplaceIn(GetConfigPath(env.configPath, "app"), AppConfigTerms(currentRoot), AppConfigTerms(name));
    }

    /** `setAuthConfigNamespace`. */
    method SetAuthConfigNamespace() returns (failure: Option<Error>)
      modifies this`files
      ensures Step(files, failure) == AuthConfigPass(old(files), dirs, env, currentRoot, name)
    {
      failure := ReplaceIn(GetConfigPath(env.configPath, "auth"), [UserTerm(currentRoot)], [UserTerm(name)]);
    }

    /** `setServicesConfigNamespace`. */
    method SetServicesConfigNamespace() returns (failure: Option<Error>)
      modifies this`files
      ensures Step(files, failure) == ServicesConfigPass(old(files), dirs, env, currentRoot, name)
    {
      failure := ReplaceIn(GetConfigPath(env.configPath, "services"), [UserTerm(currentRoot)], [UserTerm(name)]);
    }

    /** `setComposerNamespace`. */
    method SetComposerNamespace() returns (failure: Option<Error>)
      modifies this`files
      ensures Step(files, failure) == ComposerPass(old(files), dirs, env, currentRoot, name)
    {
      failure := ReplaceIn(GetComposerPath(env.basePath), [ComposerTerm(currentRoot)], [ComposerTerm(name)]);
    }

    /** `setDatabaseFactoryNamespaces`: every occurrence of the current root, in every
        PHP file below the factories directory that contains it, becomes the new name. */
    method SetDatabaseFactoryNamespaces() returns (failure: Option<Error>)
      modifies this`files
      ensures Step(files, failure) == FactoryPass(old(files), dirs, env, currentRoot, name)
    {
      var dir := FactoriesPath(env.databasePath);
      if dir !in dirs {
        return Some(DirectoryNotFound(dir));
      }
      var found := FinderFiles(files, dir, currentRoot);
      var remaining := found;
      while remaining != {}
        invariant remaining <= found
        invariant files.Keys == old(files).Keys
        invariant forall p :: p in files ==>
          files[p] == if p in found - remaining
                      then StrReplaceArray(old(files)[p], [currentRoot], [name])
                      else old(files)[p]
        decreases remaining
      {
        var p :| p in remaining;
        var _ := ReplaceIn(p, [currentRoot], [name]);
        remaining := remaining - {p};
      }
      assert files == RewriteSelected(old(files), found, [currentRoot], [name]);
      failure := None;
    }

    /** `replaceIn($path, $search, $replace)`: an existing file gets its contents
        rewritten and nothing else changes; a missing path changes nothing; a path
        that is a directory raises `FileNotFound`. */
    method ReplaceIn(path: string, search: seq<string>, replace: seq<string>) returns (failure: Option<Error>)
      modifies this`files
      ensures Step(files, failure) == ReplaceInFiles(old(files), dirs, path, search, replace)
      ensures files.Keys == old(files).Keys
      ensures forall q :: q in old(files) && q != path ==> files[q] == old(files)[q]
      ensures path !in old(files) ==> files == old(files)
    {
      if path in files {
        files := files[path := StrReplaceArray(files[path], search, replace)];
        failure := None;
      } else if path in dirs {
        failure := Some(FileNotFound(path));
      } else {
        failure := None;
      }
    }
  }
}
