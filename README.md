# Namespace rewrite command, modelled in Dafny

This project models the `basetree:namespace` console command of the
laravel-basetree package (`src/Console/ApplicationNamespace.php`). Given a new root
namespace, the command takes the application's current root namespace, trims the
backslashes off both of its ends and rewrites a fixed set of text files by plain
search and replace:

- every PHP file below the app directory that contains the root (the declaration
  `namespace R;` and every `R\`);
- `bootstrap/app.php` (`R\Http`, `R\Console`, `R\Exceptions`);
- `config/app.php` (`R\Providers`, `R\Http\Controllers\`);
- `config/auth.php` and `config/services.php` (`R\User`);
- `composer.json` (the PSR-4 key, with its backslashes doubled as JSON writes them);
- every PHP file below `database/factories` that contains the root. Here every bare
  occurrence of `R` is replaced.

Every write goes through `replaceIn`. It rewrites a path that exists and skips a
path that does not.

Files:

- `php_strings.dfy` (module `PhpStrings`): PHP's `str_contains`, `str_replace` in
  its string and array forms, the count of replacements its scan makes, `trim($x, '\\')`, and the backslash
  doubling `str_replace('\\', '\\\\', $x)`, with their lemmas.
- `filesystem.dfy` (module `Filesystem`): the files as a map from path to contents,
  the set of existing directories, `replaceIn` as a function, and a Finder loop
  (`Finder::create()->in($dir)->contains($root)->name('*.php')` followed by a
  rewrite of each file found).
- `paths.dfy` (module `Paths`): the container's directories as one value `Env`, and
  the path builders.
- `namespace_passes.dfy` (module `NamespacePasses`): the search and replace terms of
  each pass, each pass as a function of the files before it, the whole command
  (`HandleSpec`), and the lemmas about them.
- `application_namespace.dfy` (module `Console`): the command as a class. The files
  are a `map` field that the methods reassign. `currentRoot` is a field that `Handle`
  sets. The two Finder loops are `while` loops over the set of files found. Each
  method is proved to produce exactly what its pass function in `NamespacePasses`
  describes.

Error behaviour follows the code:

- A target path that does not exist is skipped.
- Two exceptions stop the command, and files written before the exception keep
  their new contents:
  - `Finder::in` on a directory that does not exist (`DirectoryNotFound`);
  - `replaceIn` on a path that exists but is a directory (`FileNotFound`, declared at
    `ApplicationNamespace.php:217`): `exists` accepts the path, then `get` refuses it.
- The command does not require the new name to differ from the current root. With
  the same name every pass leaves every file as it was.
- The rewrite is not a clean rename in every case. A sub-namespace declaration can
  turn into a declaration of the old root (`NamespacePasses.ReplaceNamespaceCanLeaveDeclaration`).
  The old `composer.json` key survives when the new name ends with the old one
  (`NamespacePasses.ComposerOldKeySurvives`).

## Model

| member | source | states |
|---|---|---|
| `PhpStrings.Trim` | src/Console/ApplicationNamespace.php:63 | the derived root neither starts nor ends with a backslash |
| `PhpStrings.TrimLeft` | src/Console/ApplicationNamespace.php:63 | the result is a suffix of the input, everything cut off is a backslash, and the result does not start with one |
| `PhpStrings.TrimRight` | src/Console/ApplicationNamespace.php:63 | the result is a prefix of the input, everything cut off is a backslash, and the result does not end with one |
| `PhpStrings.TrimKeepsInfix` | src/Console/ApplicationNamespace.php:63 | the input is a run of backslashes, then the trimmed root, then another run of backslashes |
| `PhpStrings.TrimIdempotent` | src/Console/ApplicationNamespace.php:63 | trimming the root again changes nothing |
| `PhpStrings.TrimUnchanged` | src/Console/ApplicationNamespace.php:63 | a name with no backslash at either end is its own trim |
| `PhpStrings.ReplaceWithItself` | src/Console/ApplicationNamespace.php:222 | `str_replace` with a search term equal to its replacement returns the subject |
| `PhpStrings.ReplaceAbsent` | src/Console/ApplicationNamespace.php:222 | a subject not containing the search term is returned unchanged |
| `PhpStrings.ReplaceUnchangedIff` | src/Console/ApplicationNamespace.php:222 | both directions: `str_replace` changes nothing iff the search is empty, equals the replacement, or does not occur |
| `PhpStrings.ReplaceLength` | src/Console/ApplicationNamespace.php:222 | each non-overlapping occurrence found by the left-to-right scan changes the length by `len(replace) - len(search)` |
| `PhpStrings.SubstrCountPositive` | src/Console/ApplicationNamespace.php:222 | the scan counts at least one occurrence iff the search term occurs somewhere |
| `PhpStrings.ReplaceChangesEqualLength` | src/Console/ApplicationNamespace.php:222 | with an occurring search term and a different replacement of the same length, the subject changes |
| `PhpStrings.ReplaceInsertsReplacement` | src/Console/ApplicationNamespace.php:222 | when the search term occurs, the replacement occurs in the result |
| `PhpStrings.ReplaceArraySingle` | src/Console/ApplicationNamespace.php:160-164 | the string form of `str_replace` is the array form with one pair |
| `PhpStrings.ReplaceArrayPair` | src/Console/ApplicationNamespace.php:96-104 | the array form with two pairs applies the second pair to the output of the first |
| `PhpStrings.ReplaceArrayWithItself` | src/Console/ApplicationNamespace.php:222 | search and replace arrays that are equal leave the subject unchanged |
| `PhpStrings.ReplaceArrayAbsent` | src/Console/ApplicationNamespace.php:222 | a subject containing none of the search terms is returned unchanged |
| `PhpStrings.EscapeLength` | src/Console/ApplicationNamespace.php:188-189 | the escaped length is the original length plus the number of backslashes |
| `PhpStrings.EscapeNoBackslash` | src/Console/ApplicationNamespace.php:188-189 | escaping is the identity on strings without backslashes |
| `PhpStrings.UnescapeEscape` | src/Console/ApplicationNamespace.php:188-189 | undoubling the backslashes restores the original |
| `PhpStrings.EscapeConcat` | src/Console/ApplicationNamespace.php:188-189 | escaping distributes over concatenation |
| `NamespacePasses.ComposerTerm` | src/Console/ApplicationNamespace.php:184-191 | the composer term is the escaped form of `R\`: it ends with the escaped separator, its length is known, and undoubling gives `R\` back |
| `NamespacePasses.ComposerPassWritesNewKey` | src/Console/ApplicationNamespace.php:184-191 | a `composer.json` holding the old escaped key holds the new escaped key afterwards, and the pass raises no exception |
| `NamespacePasses.ComposerOldKeySurvives` | src/Console/ApplicationNamespace.php:184-191 | when the new name ends with the current root (`App` to `MyApp`), the old escaped key is still present after the composer pass |
| `NamespacePasses.ComposerTermOfLongerName` | src/Console/ApplicationNamespace.php:188-189 | the escaped key of a name ending with the root contains the escaped key of the root |
| `NamespacePasses.ReplaceNamespaceCanLeaveDeclaration` | src/Console/ApplicationNamespace.php:94-105 | with root `A\B` and name `A`, `replaceNamespace` turns `namespace A\B\B;` into `namespace A\B;`, a declaration of the old root |
| `NamespacePasses.SubNamespaceDeclarationKept` | src/Console/ApplicationNamespace.php:96-99 | the declaration `namespace A\B;` does not occur in `namespace A\B\B;`, so the first replacement keeps it |
| `NamespacePasses.SubNamespacePrefixReplaced` | src/Console/ApplicationNamespace.php:100-103 | the prefix `A\B\` occurs once in `namespace A\B\B;` and becomes `A\` |
| `Filesystem.ReplaceInFiles` | src/Console/ApplicationNamespace.php:219-224 | an existing path gets its contents replaced and every other path keeps its contents; the key set is unchanged; a missing path leaves the whole map unchanged; only a path that is a directory fails |
| `PhpStrings.StrReplace` | src/Console/ApplicationNamespace.php:222 | `str_replace` on strings: a left-to-right scan replacing non-overlapping occurrences, an empty search changing nothing; its meaning is stated by `ReplaceUnchangedIff`, `ReplaceLength`, `ReplaceInsertsReplacement` and `ReplaceWithItself` |
| `PhpStrings.StrReplaceArray` | src/Console/ApplicationNamespace.php:96-104 | `str_replace` on arrays: the pairs in order, a missing replacement taken as empty; stated by `ReplaceArraySingle`, `ReplaceArrayPair`, `ReplaceArrayWithItself` and `ReplaceArrayAbsent` |
| `PhpStrings.ReplaceSkipsPrefix` | src/Console/ApplicationNamespace.php:222 | the scan copies unchanged a prefix that does not hold the first character of the search term |
| `PhpStrings.EscapeBackslashes` | src/Console/ApplicationNamespace.php:188-189 | `str_replace('\\', '\\\\', $x)`: every backslash doubled; stated by `EscapeLength`, `EscapeNoBackslash`, `UnescapeEscape` and `EscapeConcat` |
| `PhpStrings.Contains` | src/Console/ApplicationNamespace.php:82 | Finder's `contains($root)`: the needle occurs at some index of the contents |
| `Filesystem.InDirectory` | src/Console/ApplicationNamespace.php:81 | Finder's `in($dir)`: the path lies below the directory at any depth |
| `Filesystem.HasPhpSuffix` | src/Console/ApplicationNamespace.php:83 | Finder's `name('*.php')` |
| `Filesystem.RewriteSelected` | src/Console/ApplicationNamespace.php:84-86 | every file found gets the same array replacement and every other file is kept |
| `Filesystem.FinderFiles` | src/Console/ApplicationNamespace.php:80-83 | the Finder yields only existing files |
| `Filesystem.FinderPass` | src/Console/ApplicationNamespace.php:199-208 | a Finder loop keeps the key set and keeps every file that is not a PHP file below the directory containing the needle; when the directory exists, every such file becomes the array replacement of its contents; a file it changes gets that replacement; it fails exactly when the directory is missing |
| `Filesystem.FinderPassWithItself` | src/Console/ApplicationNamespace.php:84-86 | a Finder loop whose search and replace terms are equal leaves the files unchanged |
| `Filesystem.ReplaceInWithItself` | src/Console/ApplicationNamespace.php:219-224 | `replaceIn` whose search and replace terms are equal leaves the files unchanged |
| `Paths.GetBootstrapPath` | src/Console/ApplicationNamespace.php:230-233 | the bootstrap file is a PHP file in the bootstrap directory |
| `Paths.GetComposerPath` | src/Console/ApplicationNamespace.php:239-242 | `composer.json` lies in the base directory and is not a PHP file |
| `Paths.GetConfigPath` | src/Console/ApplicationNamespace.php:249-252 | a configuration file is a PHP file in the configuration directory |
| `Paths.GetConfigPathInjective` | src/Console/ApplicationNamespace.php:249-252 | different configuration names give different paths, so the app, auth and services passes write different files |
| `Paths.FactoriesPath` | src/Console/ApplicationNamespace.php:200 | the factories directory lies in the database directory |
| `NamespacePasses.AppDirectoryTerms` | src/Console/ApplicationNamespace.php:96-103 | the declaration `namespace R;` and the prefix `R\` |
| `NamespacePasses.BootstrapTerms` | src/Console/ApplicationNamespace.php:113-122 | `R\Http`, `R\Console` and `R\Exceptions` |
| `NamespacePasses.AppConfigTerms` | src/Console/ApplicationNamespace.php:143-150 | `R\Providers` and `R\Http\Controllers\` |
| `NamespacePasses.UserTerm` | src/Console/ApplicationNamespace.php:162-163 | `R\User`, the user model in `config/auth.php` and `config/services.php` |
| `NamespacePasses.ReplaceNamespaceText` | src/Console/ApplicationNamespace.php:94-105 | `replaceNamespace` on one file's contents; stated by `ReplaceNamespaceInOrder` |
| `NamespacePasses.AppDirectoryPass` | src/Console/ApplicationNamespace.php:78-87 | `setAppDirectoryNamespace`; stated by `AppDirectoryPassFrame` and `AppDirectoryPassTouchesOnlyTargets` |
| `NamespacePasses.BootstrapPass` | src/Console/ApplicationNamespace.php:111-124 | `setBootstrapNamespaces`; stated by `BootstrapPassTouchesOnlyTargets` |
| `NamespacePasses.AppConfigPass` | src/Console/ApplicationNamespace.php:141-152 | `setAppConfigNamespaces`; stated by `AppConfigPassTouchesOnlyTargets` |
| `NamespacePasses.AuthConfigPass` | src/Console/ApplicationNamespace.php:158-165 | `setAuthConfigNamespace`; stated by `AuthConfigPassTouchesOnlyTargets` |
| `NamespacePasses.ServicesConfigPass` | src/Console/ApplicationNamespace.php:171-178 | `setServicesConfigNamespace`; stated by `ServicesConfigPassTouchesOnlyTargets` |
| `NamespacePasses.ConfigPass` | src/Console/ApplicationNamespace.php:130-135 | `setConfigNamespaces`: the three configuration passes in order, stopping at an exception; stated by `ConfigPassTouchesOnlyTargets` |
| `NamespacePasses.ComposerPass` | src/Console/ApplicationNamespace.php:184-191 | `setComposerNamespace`; stated by `ComposerPassWritesNewKey` and `ComposerPassTouchesOnlyTargets` |
| `NamespacePasses.FactoryPass` | src/Console/ApplicationNamespace.php:197-209 | `setDatabaseFactoryNamespaces`; stated by `FactoryPassFrame` and `FactoryPassTouchesOnlyTargets` |
| `NamespacePasses.HandleSpec` | src/Console/ApplicationNamespace.php:61-68 | `handle`: the root is the trimmed application namespace, then the passes run; stated by `HandleFrame` and `SameNameLeavesFilesUnchanged` |
| `NamespacePasses.RunPasses` | src/Console/ApplicationNamespace.php:64-68 | the five passes in order, the first exception ending the run; stated by `RunPassesFrame` and `RunPassesWithItself` |
| `NamespacePasses.AppDirectoryPassWithItself` | src/Console/ApplicationNamespace.php:78-87 | with the name equal to the root, the app-directory pass keeps every file |
| `NamespacePasses.BootstrapPassWithItself` | src/Console/ApplicationNamespace.php:111-124 | with the name equal to the root, the bootstrap pass keeps every file |
| `NamespacePasses.ConfigPassWithItself` | src/Console/ApplicationNamespace.php:130-135 | with the name equal to the root, the three configuration passes keep every file |
| `NamespacePasses.ComposerPassWithItself` | src/Console/ApplicationNamespace.php:184-191 | with the name equal to the root, the composer pass keeps every file |
| `NamespacePasses.FactoryPassWithItself` | src/Console/ApplicationNamespace.php:197-209 | with the name equal to the root, the factory pass keeps every file |
| `NamespacePasses.RunPassesWithItself` | src/Console/ApplicationNamespace.php:64-68 | with the name equal to the root, the passes keep every file, whichever pass raises an exception |
| `NamespacePasses.RunPassesFrame` | src/Console/ApplicationNamespace.php:64-68 | the passes in order keep the key set and change only target files, whichever pass raises an exception |
| `NamespacePasses.ReplaceNamespaceInOrder` | src/Console/ApplicationNamespace.php:94-105 | `replaceNamespace` rewrites `namespace R;` first and then every `R\` in the intermediate text |
| `NamespacePasses.AppDirectoryPassFrame` | src/Console/ApplicationNamespace.php:78-87 | the app pass changes only PHP files below the app path that contain the root, and each one it changes becomes the `replaceNamespace` rewrite of its contents; when the app path exists, every such file becomes that rewrite; factory files outside the app path are untouched |
| `NamespacePasses.FactoryPassFrame` | src/Console/ApplicationNamespace.php:197-209 | the factory pass changes only PHP files below the factories directory that contain the root; when the directory exists, each of them has every occurrence of the root replaced by the new name |
| `NamespacePasses.BareRootOnlyFactoryRewrites` | src/Console/ApplicationNamespace.php:197-209 | text holding `R` but neither `namespace R;` nor `R\` survives the app rewrite (lines 96-104) and is changed by the factory rewrite |
| `NamespacePasses.SameNameLeavesFilesUnchanged` | src/Console/ApplicationNamespace.php:61-72 | when the new name equals the trimmed application namespace, every pass keeps every file's contents (an exception for a missing directory may still be raised) |
| `NamespacePasses.HandleFrame` | src/Console/ApplicationNamespace.php:61-72 | the command creates and deletes no file and changes only its target files, whether it finishes or stops at an exception |
| `NamespacePasses.AppDirectoryPassTouchesOnlyTargets` | src/Console/ApplicationNamespace.php:78-87 | the app pass changes only PHP files below the app path |
| `NamespacePasses.BootstrapPassTouchesOnlyTargets` | src/Console/ApplicationNamespace.php:111-124 | the bootstrap pass changes only the bootstrap file |
| `NamespacePasses.AppConfigPassTouchesOnlyTargets` | src/Console/ApplicationNamespace.php:141-152 | the app-config pass changes only `config/app.php` |
| `NamespacePasses.AuthConfigPassTouchesOnlyTargets` | src/Console/ApplicationNamespace.php:158-165 | the auth-config pass changes only `config/auth.php` |
| `NamespacePasses.ServicesConfigPassTouchesOnlyTargets` | src/Console/ApplicationNamespace.php:171-178 | the services-config pass changes only `config/services.php` |
| `NamespacePasses.ConfigPassTouchesOnlyTargets` | src/Console/ApplicationNamespace.php:130-135 | the three configuration passes together change only the three configuration files |
| `NamespacePasses.ComposerPassTouchesOnlyTargets` | src/Console/ApplicationNamespace.php:184-191 | the composer pass changes only `composer.json` |
| `NamespacePasses.FactoryPassTouchesOnlyTargets` | src/Console/ApplicationNamespace.php:197-209 | the factory pass changes only PHP files below the factories directory |
| `Console.ApplicationNamespace.constructor` | src/Console/ApplicationNamespace.php:50-55 | the command starts with the given files, directories, paths and name |
| `Console.ApplicationNamespace.Handle` | src/Console/ApplicationNamespace.php:61-72 | sets `currentRoot` to the trimmed namespace; the files and the exception are those of `HandleSpec`; no file is created or deleted; only targets change; with the same name nothing changes |
| `Console.ApplicationNamespace.SetAppDirectoryNamespace` | src/Console/ApplicationNamespace.php:78-87 | the loop over the files found leaves exactly the app-directory pass's result |
| `Console.ApplicationNamespace.ReplaceNamespace` | src/Console/ApplicationNamespace.php:94-105 | `replaceIn` with the declaration and prefix terms |
| `Console.ApplicationNamespace.SetBootstrapNamespaces` | src/Console/ApplicationNamespace.php:111-124 | the new files are those of the bootstrap pass |
| `Console.ApplicationNamespace.SetConfigNamespaces` | src/Console/ApplicationNamespace.php:130-135 | the three configuration passes in order, stopping at an exception |
| `Console.ApplicationNamespace.SetAppConfigNamespaces` | src/Console/ApplicationNamespace.php:141-152 | the new files are those of the app-config pass |
| `Console.ApplicationNamespace.SetAuthConfigNamespace` | src/Console/ApplicationNamespace.php:158-165 | the new files are those of the auth-config pass |
| `Console.ApplicationNamespace.SetServicesConfigNamespace` | src/Console/ApplicationNamespace.php:171-178 | the new files are those of the services-config pass |
| `Console.ApplicationNamespace.SetComposerNamespace` | src/Console/ApplicationNamespace.php:184-191 | the new files are those of the composer pass |
| `Console.ApplicationNamespace.SetDatabaseFactoryNamespaces` | src/Console/ApplicationNamespace.php:197-209 | the loop over the factory files found leaves exactly the factory pass's result |
| `Console.ApplicationNamespace.ReplaceIn` | src/Console/ApplicationNamespace.php:219-224 | an existing file is rewritten and every other file is kept; a missing path changes nothing; a directory raises `FileNotFound` |

## Left out

- `$this->info(...)`, `$this->composer->dumpAutoloads()` and `$this->call('optimize:clear')` (lines 69-71): console output and external side effects that touch none of the modelled files. `Handle` ends after the factory pass.
- `$this->laravel->getNamespace()` (line 63): a framework lookup. Its value is the `appNamespace` parameter of `Handle`.
- The container lookups `$this->laravel['path']`, `['path.config']`, `bootstrapPath()`, `base_path()` and `database_path()`: the fields of `Env`, fixed when the command is built. The `/` separator is the one these helpers use on Unix.
- Constructor injection of `Composer` and `Filesystem` (lines 50-55) and the argument declaration `getArguments` (lines 258-263): plumbing. The `name` argument and the files are constructor values.
- Finder's default exclusions (dot files and version-control directories), symbolic links and `getRealPath`: these belong to the external Finder library. The model selects every key below the directory, keyed by its canonical path.
- Finder's `contains` treats a needle that looks like a regular expression (the same non-alphanumeric character at both ends, optionally followed by modifier letters, as in the valid namespace `_App_A`) as a pattern, not as text. The model always reads the root as plain text (`Contains`), so for such a root it selects the files containing the text, where the source would select the files matching the pattern.
- Finder order and laziness: the found files are a set and the loop visits them in any order. This is equivalent because a rewrite changes only the file being visited.
- Write failures of `put` and all other disk errors: not modelled.
- PHP strings are byte strings. The model uses `seq<char>` with no encoding.
- No file is shown to be free of `namespace R;` after the app pass, because the source does not guarantee it even for valid namespace names: with root `A\B` and name `A`, the declaration `namespace A\B\B;` becomes `namespace A\B;` (`ReplaceNamespaceCanLeaveDeclaration`). Whether it holds for single-segment names (no `\`, `;` or space in either) is not proved.
- ComposerPassWritesNewKey: proves only that the new escaped key is present, not that no escaped occurrence of the old root remains. That second half fails for the source in the ordinary case `App` to `MyApp`, where the old key `App\\` lies inside the new key `MyApp\\` (`ComposerOldKeySurvives`). The same happens to `App\` inside `MyApp\` in the app-directory pass.
- SameNameLeavesFilesUnchanged: the files are unchanged when the name equals the trimmed application namespace. It does not follow that a second run of the command is a no-op. `getNamespace()` is a parameter here, so the model does not say it returns the new name after a run. Even if it did, a name with a backslash at either end (`Foo\`) would give the root `Foo` on the next run, not the name itself.
- Finder normalises its directory argument by stripping a trailing `/`; `InDirectory` takes the directory as given. The model also does not require the directory set to be consistent with the file paths (a path may be both, or lie below a missing directory); no lemma depends on either.
- `src/Testing/DatabaseTestCase.php` and `tests/Integration/Lumen/API/RouteResponsesTest.php` are not part of this model. They are thin wrappers over the ORM, the database, the test framework and the HTTP router.
