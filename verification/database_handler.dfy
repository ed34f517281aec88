/** The testing library's database handler: the `mysql`/`mysqldump` command
    lines it builds, the two-attempt runner that executes them, the DSN it
    connects with, and the statements it sends over its connection.

    The outside world is a parameter: which files exist is a set of paths,
    each shell execution takes the next exit code and output lines from a
    sequence of results, and the connection is the log of statements sent. */
module DatabaseHandler {
  import opened Php
  import opened Wrappers

  /** What the handler reads from the shop's configuration file. */
  datatype Config = Config(dbHost: string, dbPort: Value, dbUser: string, dbPwd: Value, dbName: string)

  /** The charset an import falls back to when none is given. */
  const CharsetMode := "utf8"

  // ---------------------------------------------------------------------
  // Connection target

  const DsnPrefix := "mysql:host="

  /** The PDO data source name: the host, then `;port=` and the port unless
      the port is empty in PHP's sense. */
  function Dsn(cfg: Config): (r: string)
    ensures |DsnPrefix| + |cfg.dbHost| <= |r|
    ensures r[..|DsnPrefix|] == DsnPrefix && r[|DsnPrefix|..|DsnPrefix| + |cfg.dbHost|] == cfg.dbHost
    ensures !Truthy(cfg.dbPort) ==> |r| == |DsnPrefix| + |cfg.dbHost|
    ensures Truthy(cfg.dbPort) ==> r[|DsnPrefix| + |cfg.dbHost|..] == ";port=" + cfg.dbPort.s
  {
    DsnPrefix + cfg.dbHost + (if Truthy(cfg.dbPort) then ";port=" + cfg.dbPort.s else "")
  }

  /** Host and optional port, as a MySQL driver reads them back from a DSN. */
  datatype Target = Target(host: string, port: Option<string>)

  /** Reads a DSN of the shape `mysql:host=H` or `mysql:host=H;port=P`. */
  function ParseDsn(dsn: string): Option<Target> {
    if |dsn| < |DsnPrefix| || dsn[..|DsnPrefix|] != DsnPrefix then None
    else
      var parts := Explode(';', dsn[|DsnPrefix|..]);
      if |parts| == 1 then Some(Target(parts[0], None))
      else if |parts| == 2 && |parts[1]| >= 5 && parts[1][..5] == "port=" then
        Some(Target(parts[0], Some(parts[1][5..])))
      else None
  }

  /** The DSN names the configured host, and names a port exactly when the
      configured port is non-empty, in which case it is that port. */
  lemma DsnRoundTrip(cfg: Config)
    requires ';' !in cfg.dbHost
    requires cfg.dbPort.Str? ==> ';' !in cfg.dbPort.s
    ensures ParseDsn(Dsn(cfg))
         == Some(Target(cfg.dbHost, if Truthy(cfg.dbPort) then Some(cfg.dbPort.s) else None))
  {
    var dsn := Dsn(cfg);
    assert dsn[..|DsnPrefix|] == DsnPrefix;
    var body := dsn[|DsnPrefix|..];
    if Truthy(cfg.dbPort) {
      var port := "port=" + cfg.dbPort.s;
      assert body == Implode([';'], [cfg.dbHost, port]);
      assert ';' !in port by { assert port[..5] == "port=" && port[5..] == cfg.dbPort.s; }
      ExplodeImplode(';', [cfg.dbHost, port]);
      assert port[..5] == "port=" && port[5..] == cfg.dbPort.s;
    } else {
      assert body == Implode([';'], [cfg.dbHost]);
      ExplodeImplode(';', [cfg.dbHost]);
    }
  }

  // ---------------------------------------------------------------------
  // Command lines

  /** ` -p` and the escaped password, present only for a truthy password. */
  function PasswordOption(pwd: Value): string {
    if Truthy(pwd) then " -p" + EscapeShellArg(pwd.s) else ""
  }

  /** A string framed by a head and a tail starts with the head and ends
      with the tail. */
  lemma Framed(head: string, mid: string, tail: string)
    ensures |head| + |tail| <= |head + mid + tail|
    ensures (head + mid + tail)[..|head|] == head
    ensures (head + mid + tail)[|head + mid + tail| - |tail|..] == tail
  {}

  /** The import command as head (host and user), middle and tail
      (database, file and redirection). */
  lemma ImportFrame(eh: string, eu: string, pw: string, cs: string, ed: string, ef: string)
    ensures "mysql -h" + eh + " -u" + eu + pw + " --default-character-set=" + cs + " " + ed + " < " + ef + " 2>&1"
         == ("mysql -h" + eh + " -u" + eu) + (pw + " --default-character-set=" + cs)
            + (" " + ed + " < " + ef + " 2>&1")
  {}

  /** The export command as head (host and user), middle and tail
      (redirection to the file). */
  lemma ExportFrame(eh: string, eu: string, pw: string, ed: string, ts: string, ef: string)
    ensures "mysqldump" + " -h" + eh + " -u" + eu + pw + " " + ed + ts + " > " + ef
         == ("mysqldump -h" + eh + " -u" + eu) + (pw + " " + ed + ts) + (" > " + ef)
  {}

  /** The `mysql` command that feeds `fileName` into the configured
      database; the charset is written unescaped. */
  function ImportCommand(cfg: Config, fileName: string, charsetMode: string): (r: string)
    ensures var head := "mysql -h" + EscapeShellArg(cfg.dbHost) + " -u" + EscapeShellArg(cfg.dbUser);
            |head| <= |r| && r[..|head|] == head
    ensures var tail := " " + EscapeShellArg(cfg.dbName) + " < " + EscapeShellArg(fileName) + " 2>&1";
            |tail| <= |r| && r[|r| - |tail|..] == tail
  {
    var eh, eu, pw := EscapeShellArg(cfg.dbHost), EscapeShellArg(cfg.dbUser), PasswordOption(cfg.dbPwd);
    var ed, ef := EscapeShellArg(cfg.dbName), EscapeShellArg(fileName);
    ImportFrame(eh, eu, pw, charsetMode, ed, ef);
    Framed("mysql -h" + eh + " -u" + eu, pw + " --default-character-set=" + charsetMode,
           " " + ed + " < " + ef + " 2>&1");
    "mysql -h" + EscapeShellArg(cfg.dbHost)
    + " -u" + EscapeShellArg(cfg.dbUser)
    + PasswordOption(cfg.dbPwd)
    + " --default-character-set=" + charsetMode
    + " " + EscapeShellArg(cfg.dbName)
    + " < " + EscapeShellArg(fileName) + " 2>&1"
  }

  /** The table argument of an export: PHP `null` or an array of names. */
  datatype Tables = NoTables | TableArray(names: seq<string>)

  /** What an export appends after the database name, as the code is
      written: the names unescaped and run together after one blank; an
      empty array passes the emptiness test unchanged and is converted to
      the string `Array`. */
  function TablesSuffix(tables: Tables): string {
    match tables
    case NoTables => ""
    case TableArray(names) => if |names| == 0 then "Array" else " " + Implode("", names)
  }

  /** The `mysqldump` command that writes the configured database, or some
      of its tables, to `fileName`. */
  function ExportCommand(cfg: Config, fileName: string, tables: Tables): (r: string)
    ensures var head := "mysqldump -h" + EscapeShellArg(cfg.dbHost) + " -u" + EscapeShellArg(cfg.dbUser);
            |head| <= |r| && r[..|head|] == head
    ensures var tail := " > " + EscapeShellArg(fileName);
            |tail| <= |r| && r[|r| - |tail|..] == tail
  {
    var eh, eu, pw := EscapeShellArg(cfg.dbHost), EscapeShellArg(cfg.dbUser), PasswordOption(cfg.dbPwd);
    var ed, ef, ts := EscapeShellArg(cfg.dbName), EscapeShellArg(fileName), TablesSuffix(tables);
    ExportFrame(eh, eu, pw, ed, ts, ef);
    Framed("mysqldump -h" + eh + " -u" + eu, pw + " " + ed + ts, " > " + ef);
    "mysqldump"
    + " -h" + EscapeShellArg(cfg.dbHost)
    + " -u" + EscapeShellArg(cfg.dbUser)
    + PasswordOption(cfg.dbPwd)
    + " " + EscapeShellArg(cfg.dbName) + TablesSuffix(tables)
    + " > " + EscapeShellArg(fileName)
  }

  /** The import command with the password option singled out: what
      comes before it and what comes after it. */
  lemma ImportLayout(eh: string, eu: string, pw: string, cs: string, ed: string, ef: string)
    ensures "mysql -h" + eh + " -u" + eu + pw + " --default-character-set=" + cs + " " + ed + " < " + ef + " 2>&1"
         == ("mysql -h" + eh + " -u" + eu) + pw
            + (" --default-character-set=" + cs + " " + ed + " < " + ef + " 2>&1")
  {}

  /** The export command with the password option singled out. */
  lemma ExportLayout(eh: string, eu: string, pw: string, ed: string, ts: string, ef: string)
    ensures "mysqldump" + " -h" + eh + " -u" + eu + pw + " " + ed + ts + " > " + ef
         == ("mysqldump -h" + eh + " -u" + eu) + pw + (" " + ed + ts + " > " + ef)
  {}

  /** A segment inserted at a split point of a string. */
  lemma Insert(a: string, seg: string, b: string)
    ensures |a| <= |a + b| && (a + b)[..|a|] == a && (a + b)[|a|..] == b
    ensures a + seg + b == (a + b)[..|a|] + seg + (a + b)[|a|..]
    ensures a + "" + b == a + b
  {}

  /** The password option is the only thing a password changes, and it is
      inserted as one segment: with a truthy password the import command is
      the password-less command with ` -p` and the escaped password inserted
      once, right after the user; a falsy password (`null`, `""`, `"0"`)
      gives the password-less command. */
  lemma ImportPasswordSegment(cfg: Config, fileName: string, charsetMode: string)
    ensures Truthy(cfg.dbPwd) ==>
      var bare := ImportCommand(cfg.(dbPwd := Null), fileName, charsetMode);
      var k := |"mysql -h" + EscapeShellArg(cfg.dbHost) + " -u" + EscapeShellArg(cfg.dbUser)|;
      && k <= |bare|
      && ImportCommand(cfg, fileName, charsetMode) == bare[..k] + " -p" + EscapeShellArg(cfg.dbPwd.s) + bare[k..]
    ensures !Truthy(cfg.dbPwd) ==>
      ImportCommand(cfg, fileName, charsetMode) == ImportCommand(cfg.(dbPwd := Null), fileName, charsetMode)
  {
    var eh, eu, ed, ef := EscapeShellArg(cfg.dbHost), EscapeShellArg(cfg.dbUser),
                          EscapeShellArg(cfg.dbName), EscapeShellArg(fileName);
    var a := "mysql -h" + eh + " -u" + eu;
    var b := " --default-character-set=" + charsetMode + " " + ed + " < " + ef + " 2>&1";
    ImportLayout(eh, eu, PasswordOption(cfg.dbPwd), charsetMode, ed, ef);
    ImportLayout(eh, eu, "", charsetMode, ed, ef);
    Insert(a, PasswordOption(cfg.dbPwd), b);
  }

  /** The export command follows the same password rule. */
  lemma ExportPasswordSegment(cfg: Config, fileName: string, tables: Tables)
    ensures Truthy(cfg.dbPwd) ==>
      var bare := ExportCommand(cfg.(dbPwd := Null), fileName, tables);
      var k := |"mysqldump -h" + EscapeShellArg(cfg.dbHost) + " -u" + EscapeShellArg(cfg.dbUser)|;
      && k <= |bare|
      && ExportCommand(cfg, fileName, tables) == bare[..k] + " -p" + EscapeShellArg(cfg.dbPwd.s) + bare[k..]
    ensures !Truthy(cfg.dbPwd) ==>
      ExportCommand(cfg, fileName, tables) == ExportCommand(cfg.(dbPwd := Null), fileName, tables)
  {
    var eh, eu, ed, ef := EscapeShellArg(cfg.dbHost), EscapeShellArg(cfg.dbUser),
                          EscapeShellArg(cfg.dbName), EscapeShellArg(fileName);
    var ts := TablesSuffix(tables);
    var a := "mysqldump -h" + eh + " -u" + eu;
    var b := " " + ed + ts + " > " + ef;
    ExportLayout(eh, eu, PasswordOption(cfg.dbPwd), ed, ts, ef);
    ExportLayout(eh, eu, "", ed, ts, ef);
    Insert(a, PasswordOption(cfg.dbPwd), b);
  }

  /** The names, each passed through `escapeshellarg`. */
  function EscapeAll(names: seq<string>): (r: seq<string>)
    ensures |r| == |names|
  {
    if names == [] then [] else [EscapeShellArg(names[0])] + EscapeAll(names[1..])
  }

  /** What the export evidently means to append: each name escaped, all of
      them separated by blanks, and nothing for an absent or empty list. */
  function IntendedTablesSuffix(tables: Tables): string {
    match tables
    case NoTables => ""
    case TableArray(names) => if |names| == 0 then "" else " " + Implode(" ", EscapeAll(names))
  }

  /** The export command with the table list written as intended. */
  function ExportCommandIntended(cfg: Config, fileName: string, tables: Tables): string {
    "mysqldump"
    + " -h" + EscapeShellArg(cfg.dbHost)
    + " -u" + EscapeShellArg(cfg.dbUser)
    + PasswordOption(cfg.dbPwd)
    + " " + EscapeShellArg(cfg.dbName) + IntendedTablesSuffix(tables)
    + " > " + EscapeShellArg(fileName)
  }

  // ---------------------------------------------------------------------
  // Running commands

  /** What one shell execution reports: its exit code and output lines. */
  datatype ExecResult = ExecResult(code: int, lines: seq<string>)

  datatype Outcome = Done | Failed(message: string)

  /** The commands handed to the shell, in order, and how the operation
      ended. */
  datatype Run = Run(commands: seq<string>, outcome: Outcome)

  /** The exception message after two failed attempts. */
  function FailureMessage(command: string, output: seq<string>): string {
    "Failed to execute command: '" + command + "' with output: '" + Implode("\n", output) + "' "
  }

  /** What running `command` through the retry runner yields: the command
      runs once, and a second, identical time exactly when the first exit
      code is positive; the run fails exactly when both codes are
      positive, and then the message quotes the command and the output
      of both attempts. */
  predicate RunsWithRetry(r: Run, command: string, world: seq<ExecResult>)
    requires |world| >= 2
  {
    && 1 <= |r.commands| <= 2
    && (forall i :: 0 <= i < |r.commands| ==> r.commands[i] == command)
    && (|r.commands| == 2 <==> world[0].code > 0)
    && (r.outcome.Failed? <==> world[0].code > 0 && world[1].code > 0)
    && (r.outcome.Failed? ==>
          r.outcome.message == FailureMessage(command, world[0].lines + world[1].lines))
  }

  /** Runs `command`; on a positive exit code it runs the identical command
      once more (after a pause of one second, not modelled) and fails if
      that attempt's code is positive too. `world` holds the results the
      shell returns for the first and the second attempt; the captured
      output accumulates across both. */
  function ExecuteCommand(command: string, world: seq<ExecResult>): (r: Run)
    requires |world| >= 2
    ensures RunsWithRetry(r, command, world)
  {
    if world[0].code > 0 then
      var output := world[0].lines + world[1].lines;
      if world[1].code > 0 then Run([command, command], Failed(FailureMessage(command, output)))
      else Run([command, command], Done)
    else Run([command], Done)
  }

  /** The failure message quotes the full command, password flag included,
      and its output section splits back into the lines of the first attempt
      followed by those of the second. */
  lemma FailureMessageCarriesBothAttempts(command: string, world: seq<ExecResult>)
    requires |world| >= 2 && world[0].code > 0 && world[1].code > 0
    requires |world[0].lines + world[1].lines| >= 1
    requires forall i :: 0 <= i < |world[0].lines| ==> '\n' !in world[0].lines[i]
    requires forall i :: 0 <= i < |world[1].lines| ==> '\n' !in world[1].lines[i]
    ensures var m := ExecuteCommand(command, world).outcome.message;
            var head := "Failed to execute command: '" + command + "' with output: '";
            && |head| + 2 <= |m|
            && m[..|head|] == head
            && m[|m| - 2..] == "' "
            && Explode('\n', m[|head|..|m| - 2]) == world[0].lines + world[1].lines
  {
    var lines := world[0].lines + world[1].lines;
    var head := "Failed to execute command: '" + command + "' with output: '";
    var out := Implode("\n", lines);
    var m := ExecuteCommand(command, world).outcome.message;
    assert m == head + out + "' ";
    assert m[..|head|] == head && m[|head|..|m| - 2] == out && m[|m| - 2..] == "' ";
    forall i | 0 <= i < |lines| ensures '\n' !in lines[i] {
      if i < |world[0].lines| { assert lines[i] == world[0].lines[i]; }
      else { assert lines[i] == world[1].lines[i - |world[0].lines|]; }
    }
    ExplodeImplode('\n', lines);
  }

  /** `import`: a missing file fails with its message before any command
      runs; otherwise the import command, with the given charset when it is
      truthy and `utf8` when not, goes through the retry runner. */
  function Import(cfg: Config, existing: set<string>, sqlFile: string, charsetMode: Value,
                  world: seq<ExecResult>): (r: Run)
    requires |world| >= 2
    ensures sqlFile !in existing ==> r == Run([], Failed("File '" + sqlFile + "' was not found."))
    ensures sqlFile in existing ==>
              RunsWithRetry(r, ImportCommand(cfg, sqlFile, if Truthy(charsetMode) then charsetMode.s else CharsetMode), world)
  {
    if sqlFile in existing then
      var charset := if Truthy(charsetMode) then charsetMode.s else CharsetMode;
      ExecuteCommand(ImportCommand(cfg, sqlFile, charset), world)
    else
      Run([], Failed("File '" + sqlFile + "' was not found."))
  }

  /** `export`: the export command, table list as the code writes it,
      goes through the retry runner; there is no check on the target
      file. */
  function Export(cfg: Config, sqlFile: string, tables: Tables, world: seq<ExecResult>): (r: Run)
    requires |world| >= 2
    ensures RunsWithRetry(r, ExportCommand(cfg, sqlFile, tables), world)
  {
    ExecuteCommand(ExportCommand(cfg, sqlFile, tables), world)
  }

  /** `export` with the table list corrected: every name escaped and
      separated from the next by a blank, nothing for an empty list. */
  function ExportIntended(cfg: Config, sqlFile: string, tables: Tables, world: seq<ExecResult>): (r: Run)
    requires |world| >= 2
    ensures RunsWithRetry(r, ExportCommandIntended(cfg, sqlFile, tables), world)
  {
    ExecuteCommand(ExportCommandIntended(cfg, sqlFile, tables), world)
  }

  /** Without a table list the command as written and the corrected one
      are the same string. */
  lemma ExportVersionsAgreeWithoutTables(cfg: Config, fileName: string)
    ensures ExportCommand(cfg, fileName, NoTables) == ExportCommandIntended(cfg, fileName, NoTables)
  {}

  // ---------------------------------------------------------------------
  // Statements over the connection

  /** `PDO::query` (a read returning a statement) or `PDO::exec` (a write
      returning a row count). */
  datatype StatementKind = Read | Write

  datatype Statement = Statement(kind: StatementKind, sql: string)

  /** A handler: its configuration, the DSN it connected with and every
      statement sent over the connection so far. */
  datatype Handler = Handler(config: Config, dsn: string, sent: seq<Statement>)

  /** The init command the driver is given on connecting and runs before
      anything else. */
  const InitStatement := Statement(Write, "SET NAMES utf8")

  /** A freshly connected handler: it keeps its configuration, has
      connected with the DSN of it, and has sent only the init command. */
  function Connect(cfg: Config): (h: Handler)
    ensures h.config == cfg && h.dsn == Dsn(cfg) && h.sent == [InitStatement]
  {
    Handler(cfg, Dsn(cfg), [InitStatement])
  }

  /** The statement that selects the configured database, name unquoted. */
  function UseStatement(cfg: Config): Statement {
    Statement(Write, "USE " + cfg.dbName)
  }

  /** `useConfiguredDatabase`: one more write is sent, `USE` followed by
      the configured database name; nothing else about the handler
      changes. */
  function UseConfiguredDatabase(h: Handler): (h': Handler)
    ensures h'.config == h.config && h'.dsn == h.dsn
    ensures |h'.sent| == |h.sent| + 1 && h'.sent[..|h.sent|] == h.sent
    ensures var u := h'.sent[|h.sent|];
            && u.kind == Write && |u.sql| == 4 + |h.config.dbName|
            && u.sql[..4] == "USE " && u.sql[4..] == h.config.dbName
  {
    h.(sent := h.sent + [UseStatement(h.config)])
  }

  /** `query`: selects the database, then sends `sql` as a read; nothing
      else about the handler changes. */
  function Query(h: Handler, sql: string): (h': Handler)
    ensures h' == h.(sent := h.sent + [UseStatement(h.config), Statement(Read, sql)])
  {
    var u := UseConfiguredDatabase(h);
    u.(sent := u.sent + [Statement(Read, sql)])
  }

  /** `exec`: selects the database, then sends `sql` as a write; nothing
      else about the handler changes. */
  function Exec(h: Handler, sql: string): (h': Handler)
    ensures h' == h.(sent := h.sent + [UseStatement(h.config), Statement(Write, sql)])
  {
    var u := UseConfiguredDatabase(h);
    u.(sent := u.sent + [Statement(Write, sql)])
  }

  /** The first piece of the left-trimmed statement, split on blanks only. */
  function FirstWord(sql: string): string {
    Explode(' ', LTrim(sql))[0]
  }

  /** The route of an upper-cased first word. */
  function KindOfWord(w: string): StatementKind {
    if w == "SELECT" || w == "SHOW" then Read else Write
  }

  /** How `execSql` routes a statement: the leading `ltrim` characters are
      skipped one by one, then a first word of `SELECT` or `SHOW`, in any
      letter case, is a read; everything else is a write. */
  function Route(sql: string): StatementKind
    decreases |sql|
  {
    if sql != [] && IsTrimmed(sql[0]) then Route(sql[1..])
    else KindOfWord(ToUpper(Explode(' ', sql)[0]))
  }

  /** Skipping the blanks one by one is the same as taking the first word
      of `ltrim($sql)`, which is how the statement is classified. */
  lemma {:induction false} RouteIsFirstWordRoute(sql: string)
    ensures Route(sql) == KindOfWord(ToUpper(FirstWord(sql)))
    decreases |sql|
  {
    if sql != [] && IsTrimmed(sql[0]) {
      RouteIsFirstWordRoute(sql[1..]);
      assert LTrim(sql) == LTrim(sql[1..]);
    } else {
      assert LTrim(sql) == sql;
    }
  }

  /** Leading `ltrim` characters do not change the route. */
  lemma {:induction false} RouteSkipsBlanks(pad: string, s: string)
    requires forall i :: 0 <= i < |pad| ==> IsTrimmed(pad[i])
    ensures Route(pad + s) == Route(s)
    decreases |pad|
  {
    if pad != [] {
      assert (pad + s)[1..] == pad[1..] + s;
      RouteSkipsBlanks(pad[1..], s);
    } else {
      assert pad + s == s;
    }
  }

  /** `execSql`: the configured database is selected, then the statement is
      sent as a read or a write according to its route. */
  function ExecSql(h: Handler, sql: string): (h': Handler)
    ensures h' == h.(sent := h.sent + [UseStatement(h.config), Statement(Route(sql), sql)])
  {
    match Route(sql)
    case Read => Query(h, sql)
    case Write => Exec(h, sql)
  }

  /** A blank, or the end of the statement, ends the first word. */
  lemma FirstPieceEmpty(rest: string)
    requires rest == [] || rest[0] == ' '
    ensures Explode(' ', rest)[0] == []
  {}

  /** Once no `ltrim` character leads, the route is decided by the first
      piece. */
  lemma RouteAtWord(s: string)
    requires s != [] && !IsTrimmed(s[0])
    ensures Route(s) == KindOfWord(ToUpper(Explode(' ', s)[0]))
  {}

  /** A word free of blanks, ended by a blank or by the end of the
      statement, is the first piece. */
  lemma RouteOfWord(w: string, rest: string)
    requires w != [] && !IsTrimmed(w[0]) && ' ' !in w
    requires rest == [] || rest[0] == ' '
    ensures Route(w + rest) == KindOfWord(ToUpper(w))
  {
    assert (w + rest)[0] == w[0];
    RouteAtWord(w + rest);
    ExplodeFreePrefix(' ', w, rest);
    FirstPieceEmpty(rest);
    assert w + [] == w;
  }

  /** Routing by the first word: after any run of `ltrim` characters, a word
      free of blanks that ends the statement or is followed by a blank
      decides the route, and only its upper-cased form matters. */
  lemma RouteByFirstWord(pad: string, w: string, rest: string)
    requires forall i :: 0 <= i < |pad| ==> IsTrimmed(pad[i])
    requires w != [] && !IsTrimmed(w[0]) && ' ' !in w
    requires rest == [] || rest[0] == ' '
    ensures Route(pad + w + rest) == KindOfWord(ToUpper(w))
  {
    var s := w + rest;
    RouteOfWord(w, rest);
    RouteSkipsBlanks(pad, s);
    Assoc(pad, w, rest);
  }

  /** A statement of `ltrim` characters only is a write. */
  lemma RouteBlankIsWrite(sql: string)
    requires forall i :: 0 <= i < |sql| ==> IsTrimmed(sql[i])
    ensures Route(sql) == Write
  {
    RouteIsFirstWordRoute(sql);
    var r := LTrim(sql);
    assert r == [];
  }

  lemma UpperOfUpper(w: string)
    requires forall i :: 0 <= i < |w| ==> !('a' <= w[i] <= 'z')
    ensures ToUpper(w) == w
  {}

  /** A lower-case `select` is a read. */
  lemma RouteLowerSelect()
    ensures Route("select 1") == Read
  {
    assert ToUpper("select") == "SELECT";
    RouteByFirstWord("", "select", " 1");
    assert "" + "select" + " 1" == "select 1";
  }

  /** Leading blanks are skipped and `SHOW` is a read too. */
  lemma RouteIndentedShow()
    ensures Route("  show tables") == Read
  {
    assert ToUpper("show") == "SHOW";
    RouteByFirstWord("  ", "show", " tables");
    assert "  " + "show" + " tables" == "  show tables";
  }

  /** A write statement goes to `exec`. */
  lemma RouteUpdate()
    ensures Route("UPDATE orders SET x=1") == Write
  {
    UpperOfUpper("UPDATE");
    RouteByFirstWord("", "UPDATE", " orders SET x=1");
    assert "" + "UPDATE" + " orders SET x=1" == "UPDATE orders SET x=1";
  }

  /** A tab does not end the first word: `SELECT<tab>1` is sent to `exec`. */
  lemma RouteTabIsWrite()
    ensures Route("SELECT\t1") == Write
  {
    UpperOfUpper("SELECT\t1");
    RouteByFirstWord("", "SELECT\t1", "");
    assert "" + "SELECT\t1" + "" == "SELECT\t1";
  }

  /** A freshly connected handler that is sent a run of statements through
      `execSql` holds the init command followed by exactly the interleaved
      log, and still the DSN of its configuration. */
  lemma ConnectThenExecAll(cfg: Config, sqls: seq<string>)
    ensures ExecAll(Connect(cfg), sqls) == Handler(cfg, Dsn(cfg), [InitStatement] + ExpectedLog(cfg, sqls))
  {
    UseBeforeEveryStatement(Connect(cfg), sqls);
  }

  /** Statements sent one after another through `execSql`. */
  function ExecAll(h: Handler, sqls: seq<string>): (h': Handler)
    ensures h'.config == h.config && h'.dsn == h.dsn
    ensures |h'.sent| == |h.sent| + 2 * |sqls| && h'.sent[..|h.sent|] == h.sent
    decreases |sqls|
  {
    if sqls == [] then h else ExecAll(ExecSql(h, sqls[0]), sqls[1..])
  }

  /** Each statement paired with its route. */
  function Routed(sqls: seq<string>): (r: seq<Statement>)
    ensures |r| == |sqls|
    ensures forall i :: 0 <= i < |sqls| ==> r[i] == Statement(Route(sqls[i]), sqls[i])
  {
    if sqls == [] then [] else [Statement(Route(sqls[0]), sqls[0])] + Routed(sqls[1..])
  }

  /** `u` placed before every element of `xs`. */
  function Interleave<T>(u: T, xs: seq<T>): (r: seq<T>)
    ensures |r| == 2 * |xs|
  {
    if xs == [] then [] else [u, xs[0]] + Interleave(u, xs[1..])
  }

  lemma InterleaveCons<T>(u: T, x: T, xs: seq<T>)
    ensures Interleave(u, [x] + xs) == [u, x] + Interleave(u, xs)
  {
    assert ([x] + xs)[0] == x && ([x] + xs)[1..] == xs;
  }

  /** Position by position: entry `2i` of the interleaving is `u`, entry
      `2i + 1` is the `i`-th element. */
  lemma {:induction false} InterleavePositions<T>(u: T, xs: seq<T>)
    ensures forall i :: 0 <= i < |xs| ==>
              Interleave(u, xs)[2 * i] == u && Interleave(u, xs)[2 * i + 1] == xs[i]
    decreases |xs|
  {
    if xs != [] {
      var r, rest := Interleave(u, xs), Interleave(u, xs[1..]);
      InterleavePositions(u, xs[1..]);
      forall i | 0 <= i < |xs|
        ensures r[2 * i] == u && r[2 * i + 1] == xs[i]
      {
        if i > 0 {
          assert xs[1..][i - 1] == xs[i];
          assert r[2 * i] == rest[2 * (i - 1)];
          assert r[2 * i + 1] == rest[2 * (i - 1) + 1];
        }
      }
    }
  }

  /** The statements a run of `execSql` calls is meant to put on the
      connection: for each call, a `USE` of the configured database and then
      the statement itself, routed by its first word. */
  function ExpectedLog(cfg: Config, sqls: seq<string>): seq<Statement> {
    Interleave(UseStatement(cfg), Routed(sqls))
  }

  /** Every statement is sent immediately after its own `USE` of the
      configured database, on every call, even when the database has not
      changed; the statements sent before are untouched and nothing else
      about the handler changes. */
  lemma {:induction false} UseBeforeEveryStatement(h: Handler, sqls: seq<string>)
    ensures ExecAll(h, sqls) == h.(sent := h.sent + ExpectedLog(h.config, sqls))
    decreases |sqls|
  {
    if sqls == [] {
      assert h.sent + [] == h.sent;
    } else {
      var u := UseStatement(h.config);
      var s0 := Statement(Route(sqls[0]), sqls[0]);
      var h1 := ExecSql(h, sqls[0]);
      var rest := ExpectedLog(h.config, sqls[1..]);
      UseBeforeEveryStatement(h1, sqls[1..]);
      assert Routed(sqls) == [s0] + Routed(sqls[1..]);
      InterleaveCons(u, s0, Routed(sqls[1..]));
      assert ExpectedLog(h.config, sqls) == [u, s0] + rest;
      assert h.sent + [u, s0] + rest == h.sent + ([u, s0] + rest);
    }
  }

  /** Position by position: entry `2i` of what a run appends is the `USE`,
      entry `2i + 1` is the `i`-th statement with its route. */
  lemma UseBeforeEachPosition(h: Handler, sqls: seq<string>)
    ensures forall i :: 0 <= i < |sqls| ==>
              && ExecAll(h, sqls).sent[|h.sent| + 2 * i] == UseStatement(h.config)
              && ExecAll(h, sqls).sent[|h.sent| + 2 * i + 1] == Statement(Route(sqls[i]), sqls[i])
  {
    var log := ExpectedLog(h.config, sqls);
    UseBeforeEveryStatement(h, sqls);
    InterleavePositions(UseStatement(h.config), Routed(sqls));
    forall i | 0 <= i < |sqls|
      ensures ExecAll(h, sqls).sent[|h.sent| + 2 * i] == UseStatement(h.config)
      ensures ExecAll(h, sqls).sent[|h.sent| + 2 * i + 1] == Statement(Route(sqls[i]), sqls[i])
    {
      assert ExecAll(h, sqls).sent[|h.sent| + 2 * i] == log[2 * i];
      assert ExecAll(h, sqls).sent[|h.sent| + 2 * i + 1] == log[2 * i + 1];
    }
  }
}
