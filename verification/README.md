# OXID eSales testing library: database handler and constructor factory

This project models two services of the OXID eSales testing library and proves properties of them in Dafny.

**Database handler.** This is the service the test tools use to reach the shop database. The model covers:
- the PDO data source name it connects with;
- the `mysql` import and `mysqldump` export command lines it builds;
- `executeCommand`, which runs a command, retries it once after a positive exit code, and fails, with a message carrying the output of both attempts, when the retry also exits with a positive code;
- the `import` and `export` operations;
- the statements it sends over its connection. `execSql` routes a statement by its first word: `SELECT` and `SHOW` go to `query`, everything else to `exec`. Every statement is preceded by a `USE` of the configured database.

**Constructor factory.** It maps a shop class name to the name of its constructor class. When no dedicated constructor class exists, it falls back to the generic `ObjectConstructor`.

The project has six modules:

- `Wrappers` (wrappers.dfy): the `Option` type.
- `Php` (php.dfy): the PHP builtins the handler relies on. These are truthiness of `null` and strings, `escapeshellarg` on POSIX, `explode`, `implode`, `ltrim` with its default character list, and `strtoupper` on ASCII.
- `Shell` (shell.dfy): how a POSIX shell splits a command line into words. It handles blanks, single quotes and backslashes, and is the partner of `escapeshellarg`: an escaped value always reads back as exactly itself.
- `DatabaseHandler` (database_handler.dfy): the configuration, the DSN, the command builders, the retry runner, `import`, `export`, and the log of statements sent.
- `CommandWords` (command_words.dfy): the words the shell reads from each command the handler builds.
- `ConstructorFactory` (constructor_factory.dfy): the factory.

Everything outside the process becomes a parameter:
- which files exist is a set of paths;
- which classes exist is a set of fully qualified class names;
- each shell execution takes its exit code and output lines from a sequence of results;
- the database connection is the sequence of statements sent over it.

## Model

| member | source | states |
|---|---|---|
| DatabaseHandler.Dsn | library/Services/Library/DatabaseHandler.php:55-57 | The DSN is `mysql:host=` and the host. It ends there when the port is empty in PHP's sense, and otherwise continues with `;port=` and the port. |
| DatabaseHandler.Connect | library/Services/Library/DatabaseHandler.php:48-69 | A new handler keeps its configuration, has connected with the DSN of that configuration, and has sent only the driver's init command `SET NAMES utf8`. |
| DatabaseHandler.DsnRoundTrip | library/Services/Library/DatabaseHandler.php:55-57 | For a host and port free of `;`, `ParseDsn`, a reader of `mysql:host=H[;port=P]`, reads the DSN back as the configured host. It finds a port exactly when the configured port is not empty (`null`, `""` and `"0"` count as empty), and then that port. |
| DatabaseHandler.ImportCommand | library/Services/Library/DatabaseHandler.php:242-254 | The import command starts with `mysql -h`, the escaped host, ` -u` and the escaped user. It ends with a blank, the escaped database, ` < `, the escaped file and ` 2>&1`. CommandWords.ImportCommandWords gives every word the shell reads from it. |
| DatabaseHandler.ExportCommand | library/Services/Library/DatabaseHandler.php:264-280 | The export command, table list as written, starts with `mysqldump -h`, the escaped host, ` -u` and the escaped user. It ends with ` > ` and the escaped file. CommandWords.ExportCommandWords gives every word the shell reads from it. |
| DatabaseHandler.ImportPasswordSegment | library/Services/Library/DatabaseHandler.php:244-248 | A truthy password adds ` -p` and the escaped password once, right after the user, to the password-less import command. A falsy password leaves the command exactly as without a password. |
| DatabaseHandler.ExportPasswordSegment | library/Services/Library/DatabaseHandler.php:266-270 | The same rule holds for the export command. |
| Shell.EscapedIsOneWord | library/Services/Library/DatabaseHandler.php:244-252 | Any value passed through `escapeshellarg` reads back from the shell as one word equal to the value, whatever quotes, blanks or backslashes it holds. |
| CommandWords.CredentialArgsRender | library/Services/Library/DatabaseHandler.php:244-248 | The host, user and password part of a command reads back as `-h<host>` and `-u<user>`, plus `-p<password>` exactly when the password is truthy. |
| CommandWords.ImportCommandWords | library/Services/Library/DatabaseHandler.php:242-254 | The import command reads back as `mysql`, the credentials, `--default-character-set=<charset>`, the database, `<`, the file and `2>&1`, every escaped value verbatim. Only the unescaped charset has to be free of blanks, quotes and backslashes. |
| CommandWords.ImportChoosesCharset | library/Services/Library/DatabaseHandler.php:179-182 | On an existing file, the charset option carries the given charset when it is truthy and `utf8` otherwise, for a charset free of blanks, single quotes and backslashes. |
| CommandWords.ExportCommandWords | library/Services/Library/DatabaseHandler.php:264-280 | The export command as written reads back as `mysqldump`, the credentials, the database words, `>` and the file. The database words are the database alone (no table list), the database with `Array` glued on (an empty array), or the database followed by one word holding all table names run together. The last case holds when the names run together are non-empty and hold no blank, quote or backslash. |
| CommandWords.ExportRunsTablesTogether | library/Services/Library/DatabaseHandler.php:272-276 | As written, with or without a password, the tables `users` and `orders` reach `mysqldump` after the credentials as the single word `usersorders`. |
| CommandWords.ExportSplitsNameWithBlank | library/Services/Library/DatabaseHandler.php:272-276 | As written, with or without a password, a single table name made of two words with a blank between them, such as `my table`, reaches `mysqldump` as two separate table words, because the names are not escaped. |
| CommandWords.ExportEmptyArrayRenamesDatabase | library/Services/Library/DatabaseHandler.php:272-277 | As written, with or without a password, an empty table array makes `mysqldump` receive the database name with `Array` appended. |
| CommandWords.ExportIntendedWords | library/Services/Library/DatabaseHandler.php:272-277 | With the table list corrected, every table name reaches `mysqldump` verbatim as a word of its own, and an empty list dumps the whole database. |
| DatabaseHandler.ExportVersionsAgreeWithoutTables | library/Services/Library/DatabaseHandler.php:272-277 | Without a table list, the command as written and the corrected command are the same string. |
| DatabaseHandler.ExecuteCommand | library/Services/Library/DatabaseHandler.php:289-302 | The command runs once. It runs a second, identical time exactly when the first exit code is positive. The run fails exactly when both exit codes are positive, and then the message quotes the command and the lines of both attempts, in order. |
| DatabaseHandler.FailureMessageCarriesBothAttempts | library/Services/Library/DatabaseHandler.php:291-299 | The failure message starts with `Failed to execute command: '<command>' with output: '` and ends with `' `. Between them, split on line feeds, are the first attempt's lines followed by the second attempt's, when the attempts printed at least one line and no line holds a line feed. |
| DatabaseHandler.Import | library/Services/Library/DatabaseHandler.php:79-87 | A missing file fails with `File '<path>' was not found.` before any command runs. Otherwise the import command runs with the given charset when it is truthy and `utf8` when not. It runs a second time exactly when the first exit code is positive. The import fails exactly when both codes are positive, with the message quoting the command and both attempts' output. |
| DatabaseHandler.Export | library/Services/Library/DatabaseHandler.php:93-96 | The export command, table list as the code writes it, runs with no file check. It runs a second time exactly when the first exit code is positive. The export fails exactly when both codes are positive, with the message quoting the command and both attempts' output. |
| CommandWords.ExportPassesWrittenTables | library/Services/Library/DatabaseHandler.php:93-96 | Every command the export as written hands to the shell reads back as a dump of the configured database to the file. The table list becomes no word, `Array` glued to the database, or one word of all the names run together. The last case holds when the names run together are non-empty and hold no blank, quote or backslash. |
| DatabaseHandler.ExportIntended | library/Services/Library/DatabaseHandler.php:272-277 | With the table list corrected, the export runs the corrected command under the same retry and failure rules. |
| CommandWords.ExportPassesEveryTable | library/Services/Library/DatabaseHandler.php:272-277 | With the table list corrected, every command an export hands to the shell reads back as a dump of the configured database to the file, limited to exactly the given tables, each a word of its own. |
| DatabaseHandler.UseConfiguredDatabase | library/Services/Library/DatabaseHandler.php:156-163 | Exactly one statement is added: a write that is `USE ` followed by the configured database name, unquoted. The configuration, the DSN and the statements sent before are unchanged. |
| DatabaseHandler.Query | library/Services/Library/DatabaseHandler.php:105-109 | `query` sends the `USE` of the configured database, then the statement as a read. Nothing else about the handler changes. |
| DatabaseHandler.Exec | library/Services/Library/DatabaseHandler.php:118-123 | `exec` sends the `USE`, then the statement as a write. Nothing else about the handler changes. |
| DatabaseHandler.ExecSql | library/Services/Library/DatabaseHandler.php:134-148 | `execSql` sends the `USE`, then the statement with the kind its route gives. |
| DatabaseHandler.RouteIsFirstWordRoute | library/Services/Library/DatabaseHandler.php:137-141 | `Route`, which skips the `ltrim` characters one by one, is decided by the upper-cased first piece of `ltrim($sql)` split on blanks: `SELECT` or `SHOW` is a read, anything else a write. |
| DatabaseHandler.RouteByFirstWord | library/Services/Library/DatabaseHandler.php:137-141 | After any run of `ltrim` characters, a blank-free word that ends the statement or is followed by a blank decides the route, in any letter case. |
| DatabaseHandler.RouteBlankIsWrite | library/Services/Library/DatabaseHandler.php:137-141 | A statement made only of `ltrim` characters goes to `exec`. |
| DatabaseHandler.RouteLowerSelect | library/Services/Library/DatabaseHandler.php:137-139 | `select 1` is a read. |
| DatabaseHandler.RouteIndentedShow | library/Services/Library/DatabaseHandler.php:137-139 | `  show tables` is a read. |
| DatabaseHandler.RouteUpdate | library/Services/Library/DatabaseHandler.php:137-141 | `UPDATE orders SET x=1` is a write. |
| DatabaseHandler.RouteTabIsWrite | library/Services/Library/DatabaseHandler.php:137-141 | `SELECT<tab>1` is a write, because only a blank ends the first word. |
| DatabaseHandler.ExecAll | library/Services/Library/DatabaseHandler.php:134-148 | A run of `execSql` calls keeps the configuration, the DSN and every statement sent before, and adds two statements per call. |
| DatabaseHandler.UseBeforeEveryStatement | library/Services/Library/DatabaseHandler.php:156-163 | A run of `execSql` calls appends, for each call, a `USE` of the configured database and then the routed statement. The `USE` is repeated on every call, and nothing else changes. |
| DatabaseHandler.ConnectThenExecAll | library/Services/Library/DatabaseHandler.php:134-163 | A new handler that receives a run of `execSql` calls holds the init command `SET NAMES utf8` followed by exactly the interleaved log of `USE` and routed statements, and still has its configuration's DSN. |
| DatabaseHandler.UseBeforeEachPosition | library/Services/Library/DatabaseHandler.php:156-159 | Position by position, entry `2i` of what a run appends is the `USE` and entry `2i + 1` is the `i`-th statement with its route. |
| Php.LTrim | library/Services/Library/DatabaseHandler.php:137 | `ltrim` returns a suffix that does not start with a trimmed character, and every character it drops is one. |
| Php.Explode | library/Services/Library/DatabaseHandler.php:137 | `explode` returns at least one piece and no piece holds the delimiter. It returns exactly one piece iff the delimiter does not occur. |
| Php.ExplodeImplode | library/Services/Library/DatabaseHandler.php:298 | Splitting lines joined with a line feed gives the lines back, provided none holds a line feed. |
| ConstructorFactory.FormConstructorClass | library/Services/ShopObjectConstructor/Constructor/ConstructorFactory.php:48-52 | The constructor class name is the namespace `OxidEsales\TestingLibrary\Services\ShopObjectConstructor\Constructor\`, the class name and `Constructor`, in that order. |
| ConstructorFactory.FormThenRead | library/Services/ShopObjectConstructor/Constructor/ConstructorFactory.php:50-51 | Reading a formed name back between the namespace and the suffix gives the class name. |
| ConstructorFactory.ReadThenForm | library/Services/ShopObjectConstructor/Constructor/ConstructorFactory.php:50-51 | Every name with that prefix and suffix is the formed name of its middle part. |
| ConstructorFactory.FormInjective | library/Services/ShopObjectConstructor/Constructor/ConstructorFactory.php:50-51 | Different class names never share a constructor class name. |
| ConstructorFactory.ChosenClass | library/Services/ShopObjectConstructor/Constructor/ConstructorFactory.php:35-38 | The dedicated constructor class is chosen when it exists, and the generic `ObjectConstructor` when it does not. |
| ConstructorFactory.GetConstructor | library/Services/ShopObjectConstructor/Constructor/ConstructorFactory.php:33-41 | An instance is built exactly when the chosen class exists. It is always of the chosen class, which exists, and always given the original class name. Otherwise the call fails on the generic class. |
| ConstructorFactory.DedicatedConstructorWins | library/Services/ShopObjectConstructor/Constructor/ConstructorFactory.php:35-40 | An existing dedicated constructor class is the one instantiated. |
| ConstructorFactory.FallbackNotRechecked | library/Services/ShopObjectConstructor/Constructor/ConstructorFactory.php:36-40 | Without a dedicated class, the generic class is used without another existence check. The call succeeds exactly when that class exists, and otherwise fails naming it. |
| ConstructorFactory.ChosenClassShape | library/Services/ShopObjectConstructor/Constructor/ConstructorFactory.php:35-51 | The chosen class always has the namespace prefix and the `Constructor` suffix, and reads back to the class name or to `Object`. |
| ConstructorFactory.OnlyTwoClassesMatter | library/Services/ShopObjectConstructor/Constructor/ConstructorFactory.php:33-41 | Classes other than the dedicated and the generic constructor class do not affect the outcome. |
| ConstructorFactory.NothingLoaded | library/Services/ShopObjectConstructor/Constructor/ConstructorFactory.php:36-40 | With no classes known, the call fails naming the generic constructor class. |

## Left out

- The PDO driver (DatabaseHandler.php:59-68) is reduced to the log of statements sent, whose first entry is its init command `SET NAMES utf8` (64). Connecting always succeeds here: the `Could not connect` failure (66-68) and the `pdo_mysql` extension check (51-53) are not modelled.
- Failures of statements are not modelled: the `PDOException` that `execSql` turns into `Could not execute sql: ...` (145-147), and the one `useConfiguredDatabase` turns into `Could not connect to database ...` (160-162). The results that `query` and `exec` return are not modelled either; they come from the database.
- `escape` (169-172) is left out because it only calls `PDO::quote`, which belongs to the database driver.
- The one-second `sleep` between the two attempts has no observable effect in the model.
- The shell itself is left out. Each execution takes its exit code and output lines from the `world` sequence, and which files exist is a set of paths.
- `escapeshellarg`: the error on a NUL byte and the handling of multibyte locales are not modelled.
- Shell.Lex: only blanks, single quotes and backslashes are interpreted. Redirections such as `<`, `>` and `2>&1` stay ordinary words, and other metacharacters (`;`, `$`, `|`, double quotes, tabs) are ordinary characters. Claims about the unescaped parts (the charset, the table names as written) therefore hold for this lexer only.
- Php.ToUpper raises only ASCII letters, as `strtoupper` does from PHP 8.2 on. It does not model the locale-dependent behaviour of older versions.
- Configuration values are strings, or `null` where the code tests their truthiness (password, port, charset). Integer values are not modelled, and neither are the trivial getters (187-232).
- CommandWords.ExportCommandWords: covers a table array only when its names run together are non-empty and hold no blank, single quote or backslash. Outside that, the words are not stated in general:
  - a blank splits the text into several words, shown for a single two-word name by ExportSplitsNameWithBlank;
  - names that run together to nothing, such as `[""]`, leave no table word;
  - an unbalanced single quote, as in `["o'b"]`, leaves a quote open, and the shell refuses the command.
- CommandWords.ImportChoosesCharset: covers a charset free of blanks, single quotes and backslashes only, because the charset is written into the command unescaped (249). A blank splits the option into several words, and a single quote or backslash can leave the command unreadable.
- CommandWords.ExportPassesWrittenTables: carries the same restriction on table arrays as ExportCommandWords, for the same reason.
- ConstructorFactory.GetConstructor: treats the set of known classes as exact, case-sensitive names. It does not model autoloading or PHP's case-insensitive class lookup. The constructed object is reduced to its class and the name it receives.
- Other files of the library (the service bootstrap, the remaining services and helpers) are not part of this model.

## Findings

| source | as written | input that shows it | evidently intended | confidence | as-written member | corrected member |
|---|---|---|---|---|---|---|
| library/Services/Library/DatabaseHandler.php:272-276 | the result of `array_map('escapeshellarg', $tables)` is discarded and `implode($tables)` joins the raw names with no glue | tables `["users", "orders"]` give the single table word `usersorders` | each table name escaped and separated from the next by a blank | high, not executed | CommandWords.ExportRunsTablesTogether | CommandWords.ExportIntendedWords |
| library/Services/Library/DatabaseHandler.php:273-274 | the table names are put on the command line unescaped | the table `["my table"]` gives the two table words `my` and `table` | each table name escaped, so it stays one word | high, not executed | CommandWords.ExportSplitsNameWithBlank | CommandWords.ExportIntendedWords |
| library/Services/Library/DatabaseHandler.php:272-277 | an empty array skips the `!empty` branch and is then concatenated as an array, which PHP converts to `Array` | tables `[]` turn database `shop` into the word `shopArray` | nothing appended, so the whole database is dumped | high, not executed | CommandWords.ExportEmptyArrayRenamesDatabase | CommandWords.ExportIntendedWords |
