/** The locations the command looks up in the framework's container, passed in as
    values, and the file paths it builds from them. */
module Paths {
  import opened Filesystem

  /** `$this->laravel['path']`, `$this->laravel['path.config']`,
      `$this->laravel->bootstrapPath()`, `base_path()` and `database_path()`. */
  datatype Env = Env(appPath: string, configPath: string, bootstrapPath: string,
                     basePath: string, databasePath: string)

  /** `getBootstrapPath`: the file `app.php` in the bootstrap directory. */
  function GetBootstrapPath(bootstrapDir: string): (p: string)
    ensures InDirectory(p, bootstrapDir) && HasPhpSuffix(p)
  {
    bootstrapDir + "/app.php"
  }

  /** `getComposerPath`: `base_path('composer.json')`. */
  function GetComposerPath(baseDir: string): (p: string)
    ensures InDirectory(p, baseDir) && !HasPhpSuffix(p)
  {
    var p := baseDir + "/composer.json";
    assert p[|p| - 4..] == "json";
    p
  }

  /** `getConfigPath($name)`: the file `<name>.php` in the configuration directory. */
  function GetConfigPath(configDir: string, name: string): (p: string)
    ensures InDirectory(p, configDir) && HasPhpSuffix(p)
  {
    configDir + "/" + name + ".php"
  }

  /** `database_path('factories')`. */
  function FactoriesPath(databaseDir: string): (p: string)
    ensures InDirectory(p, databaseDir)
  {
    databaseDir + "/factories"
  }

  /** Different configuration names give different files, so the `app`, `auth` and
      `services` passes each write their own file. */
  lemma GetConfigPathInjective(configDir: string, a: string, b: string)
    requires GetConfigPath(configDir, a) == GetConfigPath(configDir, b)
    ensures a == b
  {
    var pa, pb := GetConfigPath(configDir, a), GetConfigPath(configDir, b);
    var n := |configDir| + 1;
    assert pa[n..n + |a|] == a;
    assert pb[n..n + |b|] == b;
  }
}
