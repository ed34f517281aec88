/** What the shell makes of the command lines the database handler builds:
    each command is read back as a list of words, and every value the
    handler escapes reaches `mysql` or `mysqldump` verbatim as (part of) one
    word, whatever characters it holds. */
module CommandWords {
  import opened Php
  import opened Wrappers
  import opened Shell
  import opened DatabaseHandler

  // ---------------------------------------------------------------------
  // Single arguments

  lemma RenderLit(t: string)
    ensures Render([Lit(t)]) == t && ArgValue([Lit(t)]) == t
  {
    assert [Lit(t)][1..] == [];
    assert t + [] == t;
  }

  lemma RenderQuoted(v: string)
    ensures Render([Quoted(v)]) == EscapeShellArg(v) && ArgValue([Quoted(v)]) == v
    ensures WellFormed([Quoted(v)])
  {
    assert [Quoted(v)][1..] == [];
    assert EscapeShellArg(v) + [] == EscapeShellArg(v) && v + [] == v;
  }

  /** A non-empty plain literal is read back as itself. */
  lemma LitWellFormed(t: string)
    requires t != [] && Plain(t)
    ensures WellFormed([Lit(t)])
  {
    assert [Lit(t)][1..] == [];
  }

  /** A flag glued to a quoted value, such as `-h'host'`. */
  lemma RenderFlag(t: string, v: string)
    requires Plain(t)
    ensures Render([Lit(t), Quoted(v)]) == t + EscapeShellArg(v)
    ensures ArgValue([Lit(t), Quoted(v)]) == t + v
    ensures WellFormed([Lit(t), Quoted(v)])
  {
    var a := [Lit(t), Quoted(v)];
    assert a[1..] == [Quoted(v)];
    RenderQuoted(v);
    assert Render(a) == t + Render([Quoted(v)]);
    assert ArgValue(a) == t + ArgValue([Quoted(v)]);
  }

  lemma CommandLineOne(a: seq<Piece>)
    ensures CommandLine([a]) == Render(a)
    ensures ArgValues([a]) == [ArgValue(a)]
    ensures AllWellFormed([a]) == WellFormed(a)
  {
    assert [a][1..] == [];
  }

  /** `CommandLine` of a list starting with one argument. */
  lemma CommandLineCons(a: seq<Piece>, rest: seq<seq<Piece>>)
    requires |rest| >= 1
    ensures CommandLine([a] + rest) == Render(a) + " " + CommandLine(rest)
    ensures ArgValues([a] + rest) == [ArgValue(a)] + ArgValues(rest)
    ensures AllWellFormed([a] + rest) == (WellFormed(a) && AllWellFormed(rest))
  {
    assert ([a] + rest)[0] == a && ([a] + rest)[1..] == rest;
  }

  // ---------------------------------------------------------------------
  // Credentials

  /** The arguments both commands open with: host and user, then the
      password flag when there is one. */
  function CredentialArgs(cfg: Config): seq<seq<Piece>> {
    [[Lit("-h"), Quoted(cfg.dbHost)], [Lit("-u"), Quoted(cfg.dbUser)]]
    + (if Truthy(cfg.dbPwd) then [[Lit("-p"), Quoted(cfg.dbPwd.s)]] else [])
  }

  /** The words the credentials are meant to become: the flags with the
      raw values, and `-p` with the password only for a truthy password. */
  function CredentialWords(cfg: Config): seq<string> {
    ["-h" + cfg.dbHost, "-u" + cfg.dbUser]
    + (if Truthy(cfg.dbPwd) then ["-p" + cfg.dbPwd.s] else [])
  }

  /** The credentials as the builders write them. */
  function CredentialLine(cfg: Config): string {
    "-h" + EscapeShellArg(cfg.dbHost) + " -u" + EscapeShellArg(cfg.dbUser) + PasswordOption(cfg.dbPwd)
  }

  lemma JoinFlag(x: string, v: string)
    ensures x + " " + ("-p" + v) == x + (" -p" + v)
  {}

  lemma JoinTwo(eh: string, eu: string)
    ensures ("-h" + eh) + " " + ("-u" + eu) == "-h" + eh + " -u" + eu
  {}

  /** The credential arguments are well formed and written as the builders
      write them, and they mean the credential words. */
  lemma CredentialArgsRender(cfg: Config)
    ensures |CredentialArgs(cfg)| >= 2 && AllWellFormed(CredentialArgs(cfg))
    ensures CommandLine(CredentialArgs(cfg)) == CredentialLine(cfg)
    ensures ArgValues(CredentialArgs(cfg)) == CredentialWords(cfg)
  {
    var h, u := [Lit("-h"), Quoted(cfg.dbHost)], [Lit("-u"), Quoted(cfg.dbUser)];
    var eh, eu := EscapeShellArg(cfg.dbHost), EscapeShellArg(cfg.dbUser);
    assert Plain("-h") && Plain("-u") && Plain("-p");
    RenderFlag("-h", cfg.dbHost);
    RenderFlag("-u", cfg.dbUser);
    CommandLineTwo(h, u);
    JoinTwo(eh, eu);
    if Truthy(cfg.dbPwd) {
      var p := [Lit("-p"), Quoted(cfg.dbPwd.s)];
      RenderFlag("-p", cfg.dbPwd.s);
      CommandLineOne(p);
      CommandLineAppend([h, u], [p]);
      ArgValuesAppend([h, u], [p]);
      AllWellFormedAppend([h, u], [p]);
      assert CredentialArgs(cfg) == [h, u] + [p];
      JoinFlag("-h" + eh + " -u" + eu, EscapeShellArg(cfg.dbPwd.s));
    } else {
      assert CredentialArgs(cfg) == [h, u];
      assert "-h" + eh + " -u" + eu + "" == "-h" + eh + " -u" + eu;
    }
  }

  // ---------------------------------------------------------------------
  // Import

  /** Everything after the credentials of an import, starting with the
      charset option `opt`. */
  function ImportTail(opt: string, db: string, fileName: string): seq<seq<Piece>> {
    [[Lit(opt)], [Quoted(db)], [Lit("<")], [Quoted(fileName)], [Lit("2>&1")]]
  }

  /** Five arguments in a row. */
  lemma CommandLineFive(c: seq<Piece>, d: seq<Piece>, l: seq<Piece>, f: seq<Piece>, e: seq<Piece>)
    ensures CommandLine([c, d, l, f, e])
         == Render(c) + " " + (Render(d) + " " + (Render(l) + " " + (Render(f) + " " + Render(e))))
    ensures ArgValues([c, d, l, f, e]) == [ArgValue(c), ArgValue(d), ArgValue(l), ArgValue(f), ArgValue(e)]
    ensures AllWellFormed([c, d, l, f, e])
        == (WellFormed(c) && WellFormed(d) && WellFormed(l) && WellFormed(f) && WellFormed(e))
  {
    var s4 := [f, e];
    var s3 := [l] + s4;
    var s2 := [d] + s3;
    assert [c, d, l, f, e] == [c] + s2;
    CommandLineTwo(f, e);
    CommandLineCons(l, s4);
    CommandLineCons(d, s3);
    CommandLineCons(c, s2);
  }

  /** The blanks around `<` and before `2>&1` are argument separators. */
  lemma RedirectLiterals()
    ensures " < " == " " + "<" + " " && " 2>&1" == " " + "2>&1"
  {}

  lemma TailLayout(c: string, ed: string, ef: string)
    ensures c + " " + (ed + " " + ("<" + " " + (ef + " " + "2>&1"))) == c + " " + ed + " < " + ef + " 2>&1"
  {
    RedirectLiterals();
  }

  lemma CharsetPlain(charsetMode: string)
    requires Plain(charsetMode)
    ensures Plain("--default-character-set=" + charsetMode)
  {
    var s := "--default-character-set=" + charsetMode;
    forall i | 0 <= i < |s| ensures !IsSpecial(s[i]) {
      var k := |"--default-character-set="|;
      if i >= k { assert s[i] == charsetMode[i - k]; }
    }
  }

  lemma ImportTailRender(opt: string, db: string, fileName: string)
    requires opt != [] && Plain(opt)
    ensures var tail := ImportTail(opt, db, fileName);
            && AllWellFormed(tail)
            && CommandLine(tail) == opt + " " + EscapeShellArg(db) + " < " + EscapeShellArg(fileName) + " 2>&1"
            && ArgValues(tail) == [opt, db, "<", fileName, "2>&1"]
  {
    var c, d, l, f, e := [Lit(opt)], [Quoted(db)], [Lit("<")], [Quoted(fileName)], [Lit("2>&1")];
    assert ImportTail(opt, db, fileName) == [c, d, l, f, e];
    CommandLineFive(c, d, l, f, e);
    RenderLit(opt);
    RenderQuoted(db);
    RenderLit("<");
    RenderQuoted(fileName);
    RenderLit("2>&1");
    LitWellFormed(opt);
    RedirectWordsPlain();
    TailLayout(opt, EscapeShellArg(db), EscapeShellArg(fileName));
  }

  /** `<` and `2>&1` are words of their own. */
  lemma RedirectWordsPlain()
    ensures WellFormed([Lit("<")]) && WellFormed([Lit("2>&1")])
  {
    assert Plain("<") && Plain("2>&1");
    LitWellFormed("<");
    LitWellFormed("2>&1");
  }

  /** The blanks inside the literal parts of the import command are
      argument separators. */
  lemma ImportLiterals()
    ensures "mysql -h" == "mysql" + " " + "-h"
    ensures " --default-character-set=" == " " + "--default-character-set="
  {}

  lemma ImportHead(eh: string, eu: string, pw: string)
    ensures "mysql -h" + eh + " -u" + eu + pw == "mysql" + " " + ("-h" + eh + " -u" + eu + pw)
  {
    ImportLiterals();
  }

  lemma ImportRest(p: string, cs: string, ed: string, ef: string)
    ensures p + " --default-character-set=" + cs + " " + ed + " < " + ef + " 2>&1"
         == p + " " + ("--default-character-set=" + cs + " " + ed + " < " + ef + " 2>&1")
  {
    ImportLiterals();
  }

  /** The import command is `mysql`, the credentials and the tail, with
      single blanks between them. */
  lemma ImportShape(eh: string, eu: string, pw: string, cs: string, ed: string, ef: string)
    ensures "mysql -h" + eh + " -u" + eu + pw + " --default-character-set=" + cs + " " + ed + " < " + ef + " 2>&1"
         == "mysql" + " " + ("-h" + eh + " -u" + eu + pw)
            + " " + ("--default-character-set=" + cs + " " + ed + " < " + ef + " 2>&1")
  {
    ImportHead(eh, eu, pw);
    ImportRest("mysql" + " " + ("-h" + eh + " -u" + eu + pw), cs, ed, ef);
  }

  /** The import command as a list of shell arguments. */
  function ImportArgs(cfg: Config, fileName: string, charsetMode: string): seq<seq<Piece>> {
    [[Lit("mysql")]] + CredentialArgs(cfg) + ImportTail("--default-character-set=" + charsetMode, cfg.dbName, fileName)
  }

  /** Import command: the shell reads it as `mysql`, `-h` with the host,
      `-u` with the user, `-p` with the password exactly when the password is
      truthy, the charset option, the database, `<`, the file and `2>&1`.
      Every escaped value comes back verbatim, whatever characters it holds;
      only the charset, which is not escaped, must be plain. */
  lemma ImportCommandWords(cfg: Config, fileName: string, charsetMode: string)
    requires Plain(charsetMode)
    ensures Words(ImportCommand(cfg, fileName, charsetMode))
         == Some(["mysql"] + CredentialWords(cfg)
                 + ["--default-character-set=" + charsetMode, cfg.dbName, "<", fileName, "2>&1"])
  {
    var head := [[Lit("mysql")]];
    var creds := CredentialArgs(cfg);
    var opt := "--default-character-set=" + charsetMode;
    var tail := ImportTail(opt, cfg.dbName, fileName);
    CredentialArgsRender(cfg);
    CharsetPlain(charsetMode);
    ImportTailRender(opt, cfg.dbName, fileName);
    RenderLit("mysql");
    assert Plain("mysql");
    LitWellFormed("mysql");
    CommandLineOne([Lit("mysql")]);
    CommandLineAppend(head, creds);
    CommandLineAppend(head + creds, tail);
    ArgValuesAppend(head, creds);
    ArgValuesAppend(head + creds, tail);
    AllWellFormedAppend(head, creds);
    AllWellFormedAppend(head + creds, tail);
    ImportShape(EscapeShellArg(cfg.dbHost), EscapeShellArg(cfg.dbUser), PasswordOption(cfg.dbPwd),
                charsetMode, EscapeShellArg(cfg.dbName), EscapeShellArg(fileName));
    CommandLineWords(head + creds + tail);
  }

  /** On an existing file the shell sees the charset option with the given
      charset when it is truthy and with `utf8` otherwise (`null`, `""`,
      `"0"`), fifth word from the end. */
  lemma ImportChoosesCharset(cfg: Config, existing: set<string>, sqlFile: string, charsetMode: Value,
                             world: seq<ExecResult>)
    requires |world| >= 2 && sqlFile in existing
    requires charsetMode.Str? ==> Plain(charsetMode.s)
    ensures var ws := Words(Import(cfg, existing, sqlFile, charsetMode, world).commands[0]);
            && ws.Some?
            && |ws.value| >= 5
            && ws.value[|ws.value| - 5]
               == "--default-character-set=" + (if Truthy(charsetMode) then charsetMode.s else CharsetMode)
  {
    var charset := if Truthy(charsetMode) then charsetMode.s else CharsetMode;
    assert Plain(CharsetMode);
    ImportCommandWords(cfg, sqlFile, charset);
  }

  // ---------------------------------------------------------------------
  // Export

  /** All table names run together, as the export writes them. */
  function RunTogether(tables: Tables): string {
    match tables
    case NoTables => []
    case TableArray(names) => Implode("", names)
  }

  /** Tables for which the export as written still produces well-formed
      words: none, the empty array, or names whose concatenation is plain
      and non-empty. */
  predicate ReadableTables(tables: Tables) {
    tables.NoTables? || |tables.names| == 0 || (Plain(RunTogether(tables)) && RunTogether(tables) != [])
  }

  /** What the shell makes of the database name and the table suffix, as
      the export is written: the database alone; the database with `Array`
      glued on for an empty array; or the database followed by ONE word
      holding all table names run together. */
  function ExportDatabaseWords(db: string, tables: Tables): seq<string> {
    match tables
    case NoTables => [db]
    case TableArray(names) => if |names| == 0 then [db + "Array"] else [db, Implode("", names)]
  }

  /** The database argument, and the table argument if any, of the export
      as written. */
  function ExportDatabaseArgs(db: string, tables: Tables): seq<seq<Piece>> {
    match tables
    case NoTables => [[Quoted(db)]]
    case TableArray(names) =>
      if |names| == 0 then [[Quoted(db), Lit("Array")]] else [[Quoted(db)], [Lit(Implode("", names))]]
  }

  /** The database name glued to a literal suffix, as one argument. */
  lemma GluedRender(db: string, suffix: string)
    requires Plain(suffix)
    ensures var a := [Quoted(db), Lit(suffix)];
            && AllWellFormed([a])
            && CommandLine([a]) == EscapeShellArg(db) + suffix
            && ArgValues([a]) == [db + suffix]
  {
    var a := [Quoted(db), Lit(suffix)];
    assert a[1..] == [Lit(suffix)];
    RenderLit(suffix);
    RenderQuoted(db);
    assert PlainPieces([Lit(suffix)]) by { assert [Lit(suffix)][1..] == []; }
    assert OpensWord(a) by { assert a[0].Quoted?; }
    assert Render(a) == EscapeShellArg(db) + Render([Lit(suffix)]);
    assert ArgValue(a) == db + ArgValue([Lit(suffix)]);
    CommandLineOne(a);
  }

  /** The database name, then the table names as one literal argument. */
  lemma SeparateRender(db: string, n: string)
    requires n != [] && Plain(n)
    ensures var args := [[Quoted(db)], [Lit(n)]];
            && AllWellFormed(args)
            && CommandLine(args) == EscapeShellArg(db) + " " + n
            && ArgValues(args) == [db, n]
  {
    RenderQuoted(db);
    RenderLit(n);
    LitWellFormed(n);
    CommandLineTwo([Quoted(db)], [Lit(n)]);
  }

  lemma ExportDatabaseArgsRender(db: string, tables: Tables)
    requires ReadableTables(tables)
    ensures |ExportDatabaseArgs(db, tables)| >= 1 && AllWellFormed(ExportDatabaseArgs(db, tables))
    ensures CommandLine(ExportDatabaseArgs(db, tables)) == EscapeShellArg(db) + TablesSuffix(tables)
    ensures ArgValues(ExportDatabaseArgs(db, tables)) == ExportDatabaseWords(db, tables)
  {
    match tables {
      case NoTables =>
        assert Plain("");
        GluedRender(db, "");
        assert [Quoted(db), Lit("")][1..] == [Lit("")];
        RenderQuoted(db);
        CommandLineOne([Quoted(db)]);
        assert EscapeShellArg(db) + "" == EscapeShellArg(db);
      case TableArray(names) =>
        if |names| == 0 {
          assert Plain("Array");
          GluedRender(db, "Array");
        } else {
          SeparateRender(db, Implode("", names));
        }
    }
  }

  /** The `> file` redirection that ends every export. */
  lemma RedirectRender(fileName: string)
    ensures var tail := [[Lit(">")], [Quoted(fileName)]];
            && AllWellFormed(tail)
            && CommandLine(tail) == ">" + " " + EscapeShellArg(fileName)
            && ArgValues(tail) == [">", fileName]
  {
    RenderLit(">");
    RenderQuoted(fileName);
    assert Plain(">");
    LitWellFormed(">");
    CommandLineOne([Quoted(fileName)]);
    CommandLineCons([Lit(">")], [[Quoted(fileName)]]);
    assert [[Lit(">")]] + [[Quoted(fileName)]] == [[Lit(">")], [Quoted(fileName)]];
  }

  /** The blanks inside the literal parts of the export command are
      argument separators. */
  lemma ExportLiterals()
    ensures " -h" == " " + "-h"
    ensures " > " == " " + ">" + " "
  {}

  lemma ExportHead(eh: string, eu: string, pw: string)
    ensures "mysqldump" + " -h" + eh + " -u" + eu + pw == "mysqldump" + " " + ("-h" + eh + " -u" + eu + pw)
  {
    ExportLiterals();
  }

  lemma ExportRest(p: string, ed: string, ts: string, ef: string)
    ensures p + " " + ed + ts + " > " + ef == p + " " + (ed + ts) + " " + (">" + " " + ef)
  {
    ExportLiterals();
  }

  /** The export command is `mysqldump`, the credentials, the database part
      and the redirection, with single blanks between them. */
  lemma ExportShape(eh: string, eu: string, pw: string, ed: string, ts: string, ef: string)
    ensures "mysqldump" + " -h" + eh + " -u" + eu + pw + " " + ed + ts + " > " + ef
         == "mysqldump" + " " + ("-h" + eh + " -u" + eu + pw) + " " + (ed + ts) + " " + (">" + " " + ef)
  {
    ExportHead(eh, eu, pw);
    ExportRest("mysqldump" + " " + ("-h" + eh + " -u" + eu + pw), ed, ts, ef);
  }

  /** Four argument lists in a row. */
  lemma CommandLineFour(a: seq<seq<Piece>>, b: seq<seq<Piece>>, c: seq<seq<Piece>>, d: seq<seq<Piece>>)
    requires |a| >= 1 && |b| >= 1 && |c| >= 1 && |d| >= 1
    requires AllWellFormed(a) && AllWellFormed(b) && AllWellFormed(c) && AllWellFormed(d)
    ensures Words(CommandLine(a + b + c + d)) == Some(ArgValues(a) + ArgValues(b) + ArgValues(c) + ArgValues(d))
    ensures CommandLine(a + b + c + d)
         == CommandLine(a) + " " + CommandLine(b) + " " + CommandLine(c) + " " + CommandLine(d)
  {
    CommandLineAppend(a, b);
    CommandLineAppend(a + b, c);
    CommandLineAppend(a + b + c, d);
    ArgValuesAppend(a, b);
    ArgValuesAppend(a + b, c);
    ArgValuesAppend(a + b + c, d);
    AllWellFormedAppend(a, b);
    AllWellFormedAppend(a + b, c);
    AllWellFormedAppend(a + b + c, d);
    CommandLineWords(a + b + c + d);
  }

  /** Export command as written: the shell reads `mysqldump`, the
      credentials, the database words of `ExportDatabaseWords`, `>` and the
      file. */
  lemma ExportCommandWords(cfg: Config, fileName: string, tables: Tables)
    requires ReadableTables(tables)
    ensures Words(ExportCommand(cfg, fileName, tables))
         == Some(["mysqldump"] + CredentialWords(cfg)
                 + ExportDatabaseWords(cfg.dbName, tables) + [">", fileName])
  {
    var head := [[Lit("mysqldump")]];
    RenderLit("mysqldump");
    assert Plain("mysqldump");
    LitWellFormed("mysqldump");
    CommandLineOne([Lit("mysqldump")]);
    CredentialArgsRender(cfg);
    ExportDatabaseArgsRender(cfg.dbName, tables);
    RedirectRender(fileName);
    CommandLineFour(head, CredentialArgs(cfg), ExportDatabaseArgs(cfg.dbName, tables),
                    [[Lit(">")], [Quoted(fileName)]]);
    ExportShape(EscapeShellArg(cfg.dbHost), EscapeShellArg(cfg.dbUser), PasswordOption(cfg.dbPwd),
                EscapeShellArg(cfg.dbName), TablesSuffix(tables), EscapeShellArg(fileName));
  }

  /** Two table names reach `mysqldump` as one word: `users` and `orders`
      become the single table `usersorders`. */
  lemma ExportRunsTablesTogether(cfg: Config, fileName: string)
    ensures Words(ExportCommand(cfg, fileName, TableArray(["users", "orders"])))
         == Some(["mysqldump"] + CredentialWords(cfg) + [cfg.dbName, "usersorders"] + [">", fileName])
  {
    var tables := TableArray(["users", "orders"]);
    assert Implode("", ["users", "orders"]) == "usersorders" by {
      assert ["users", "orders"][1..] == ["orders"];
    }
    assert Plain("usersorders");
    ExportCommandWords(cfg, fileName, tables);
  }

  /** An empty table array renames the database: the shell passes
      `mysqldump` the database name with `Array` glued on. */
  lemma ExportEmptyArrayRenamesDatabase(cfg: Config, fileName: string)
    ensures Words(ExportCommand(cfg, fileName, TableArray([])))
         == Some(["mysqldump"] + CredentialWords(cfg) + [cfg.dbName + "Array"] + [">", fileName])
  {
    ExportCommandWords(cfg, fileName, TableArray([]));
  }

  /** The database name followed by two literal words. */
  lemma DatabaseAndTwoWords(db: string, x: string, y: string)
    requires x != [] && Plain(x) && y != [] && Plain(y)
    ensures var c := [[Quoted(db)], [Lit(x)], [Lit(y)]];
            && AllWellFormed(c)
            && CommandLine(c) == EscapeShellArg(db) + " " + x + " " + y
            && ArgValues(c) == [db, x, y]
  {
    var names := [[Lit(x)], [Lit(y)]];
    LitWellFormed(x);
    LitWellFormed(y);
    RenderLit(x);
    RenderLit(y);
    RenderQuoted(db);
    CommandLineTwo([Lit(x)], [Lit(y)]);
    CommandLineCons([Quoted(db)], names);
    assert [[Quoted(db)]] + names == [[Quoted(db)], [Lit(x)], [Lit(y)]];
    Regroup(EscapeShellArg(db) + " ", x, " ", y);
    Assoc(EscapeShellArg(db), " ", x + " " + y);
  }

  lemma TwoWordSuffix(e: string, x: string, y: string)
    ensures e + " " + x + " " + y == e + (" " + (x + " " + y))
  {}

  /** The table names are not escaped, so a name holding a blank is split:
      the one table `x y` reaches `mysqldump` as the two tables `x` and
      `y`. */
  lemma ExportSplitsNameWithBlank(cfg: Config, fileName: string, x: string, y: string)
    requires x != [] && Plain(x) && y != [] && Plain(y)
    ensures Words(ExportCommand(cfg, fileName, TableArray([x + " " + y])))
         == Some(["mysqldump"] + CredentialWords(cfg) + [cfg.dbName, x, y] + [">", fileName])
  {
    var tables := TableArray([x + " " + y]);
    var head, tail := [[Lit("mysqldump")]], [[Lit(">")], [Quoted(fileName)]];
    var c := [[Quoted(cfg.dbName)], [Lit(x)], [Lit(y)]];
    RenderLit("mysqldump");
    assert Plain("mysqldump");
    LitWellFormed("mysqldump");
    CommandLineOne([Lit("mysqldump")]);
    DatabaseAndTwoWords(cfg.dbName, x, y);
    assert TablesSuffix(tables) == " " + (x + " " + y) by {
      assert [x + " " + y][1..] == [];
      assert (x + " " + y) + "" == x + " " + y;
    }
    TwoWordSuffix(EscapeShellArg(cfg.dbName), x, y);
    CredentialArgsRender(cfg);
    RedirectRender(fileName);
    CommandLineFour(head, CredentialArgs(cfg), c, tail);
    ExportShape(EscapeShellArg(cfg.dbHost), EscapeShellArg(cfg.dbUser), PasswordOption(cfg.dbPwd),
                EscapeShellArg(cfg.dbName), TablesSuffix(tables), EscapeShellArg(fileName));
  }

  /** The names as one quoted argument each. */
  function QuotedArgs(names: seq<string>): (r: seq<seq<Piece>>)
    ensures |r| == |names|
  {
    if names == [] then [] else [[Quoted(names[0])]] + QuotedArgs(names[1..])
  }

  lemma {:induction false} QuotedArgsWellFormed(names: seq<string>)
    ensures AllWellFormed(QuotedArgs(names))
    decreases |names|
  {
    if names != [] {
      var a, rest := [Quoted(names[0])], QuotedArgs(names[1..]);
      assert QuotedArgs(names) == [a] + rest;
      RenderQuoted(names[0]);
      CommandLineOne(a);
      QuotedArgsWellFormed(names[1..]);
      AllWellFormedAppend([a], rest);
    }
  }

  lemma {:induction false} QuotedArgsLine(names: seq<string>)
    requires |names| >= 1
    ensures CommandLine(QuotedArgs(names)) == Implode(" ", EscapeAll(names))
    decreases |names|
  {
    var a := [Quoted(names[0])];
    RenderQuoted(names[0]);
    if |names| == 1 {
      CommandLineOne(a);
      assert QuotedArgs(names) == [a];
      assert EscapeAll(names) == [EscapeShellArg(names[0])];
    } else {
      var rest := QuotedArgs(names[1..]);
      assert QuotedArgs(names) == [a] + rest;
      QuotedArgsLine(names[1..]);
      CommandLineCons(a, rest);
      assert EscapeAll(names) == [EscapeShellArg(names[0])] + EscapeAll(names[1..]);
      ImplodeCons(" ", EscapeShellArg(names[0]), EscapeAll(names[1..]));
    }
  }

  lemma {:induction false} QuotedArgsValues(names: seq<string>)
    ensures ArgValues(QuotedArgs(names)) == names
    decreases |names|
  {
    if names != [] {
      var a, rest := [Quoted(names[0])], QuotedArgs(names[1..]);
      assert QuotedArgs(names) == [a] + rest;
      RenderQuoted(names[0]);
      CommandLineOne(a);
      QuotedArgsValues(names[1..]);
      ArgValuesAppend([a], rest);
      assert names == [names[0]] + names[1..];
    }
  }

  /** Each table name becomes one quoted argument: together they are
      written as the escaped names joined by blanks, and read back as the
      names themselves. */
  lemma QuotedArgsRender(names: seq<string>)
    requires |names| >= 1
    ensures AllWellFormed(QuotedArgs(names))
    ensures CommandLine(QuotedArgs(names)) == Implode(" ", EscapeAll(names))
    ensures ArgValues(QuotedArgs(names)) == names
  {
    QuotedArgsWellFormed(names);
    QuotedArgsLine(names);
    QuotedArgsValues(names);
  }

  /** The table names the corrected export passes. */
  function TableNames(tables: Tables): seq<string> {
    match tables
    case NoTables => []
    case TableArray(names) => names
  }

  /** The database argument followed by one quoted argument per table. */
  function IntendedDatabaseArgs(db: string, tables: Tables): seq<seq<Piece>> {
    [[Quoted(db)]] + QuotedArgs(TableNames(tables))
  }

  /** The database argument alone. */
  lemma DatabaseOnlyRender(db: string)
    ensures AllWellFormed([[Quoted(db)]])
    ensures CommandLine([[Quoted(db)]]) == EscapeShellArg(db) + ""
    ensures ArgValues([[Quoted(db)]]) == [db] + []
  {
    RenderQuoted(db);
    CommandLineOne([Quoted(db)]);
  }

  /** The database argument, then at least one quoted table argument. */
  lemma DatabaseAndTablesRender(db: string, names: seq<string>)
    requires |names| >= 1
    ensures AllWellFormed([[Quoted(db)]] + QuotedArgs(names))
    ensures CommandLine([[Quoted(db)]] + QuotedArgs(names)) == EscapeShellArg(db) + (" " + Implode(" ", EscapeAll(names)))
    ensures ArgValues([[Quoted(db)]] + QuotedArgs(names)) == [db] + names
  {
    RenderQuoted(db);
    QuotedArgsRender(names);
    CommandLineCons([Quoted(db)], QuotedArgs(names));
    Assoc(EscapeShellArg(db), " ", Implode(" ", EscapeAll(names)));
  }

  lemma IntendedDatabaseArgsRender(db: string, tables: Tables)
    ensures AllWellFormed(IntendedDatabaseArgs(db, tables))
    ensures CommandLine(IntendedDatabaseArgs(db, tables)) == EscapeShellArg(db) + IntendedTablesSuffix(tables)
    ensures ArgValues(IntendedDatabaseArgs(db, tables)) == [db] + TableNames(tables)
  {
    var names := TableNames(tables);
    if names == [] {
      assert IntendedDatabaseArgs(db, tables) == [[Quoted(db)]];
      assert IntendedTablesSuffix(tables) == "";
      DatabaseOnlyRender(db);
    } else {
      assert IntendedTablesSuffix(tables) == " " + Implode(" ", EscapeAll(names));
      DatabaseAndTablesRender(db, names);
    }
  }

  /** Corrected export: every table name reaches `mysqldump` as a word of
      its own, verbatim, whatever characters it holds, and an empty array
      dumps the whole database. */
  lemma ExportIntendedWords(cfg: Config, fileName: string, tables: Tables)
    ensures Words(ExportCommandIntended(cfg, fileName, tables))
         == Some(["mysqldump"] + CredentialWords(cfg) + ([cfg.dbName] + TableNames(tables)) + [">", fileName])
  {
    var head := [[Lit("mysqldump")]];
    RenderLit("mysqldump");
    assert Plain("mysqldump");
    LitWellFormed("mysqldump");
    CommandLineOne([Lit("mysqldump")]);
    CredentialArgsRender(cfg);
    IntendedDatabaseArgsRender(cfg.dbName, tables);
    RedirectRender(fileName);
    CommandLineFour(head, CredentialArgs(cfg), IntendedDatabaseArgs(cfg.dbName, tables),
                    [[Lit(">")], [Quoted(fileName)]]);
    ExportShape(EscapeShellArg(cfg.dbHost), EscapeShellArg(cfg.dbUser), PasswordOption(cfg.dbPwd),
                EscapeShellArg(cfg.dbName), IntendedTablesSuffix(tables), EscapeShellArg(fileName));
  }

  /** With the table list corrected, every command an export hands to the
      shell dumps the configured database to the file, restricted to
      exactly the given tables, each one a word of its own. */
  lemma ExportPassesEveryTable(cfg: Config, sqlFile: string, tables: Tables, world: seq<ExecResult>)
    requires |world| >= 2
    ensures forall i :: 0 <= i < |ExportIntended(cfg, sqlFile, tables, world).commands| ==>
              Words(ExportIntended(cfg, sqlFile, tables, world).commands[i])
              == Some(["mysqldump"] + CredentialWords(cfg) + ([cfg.dbName] + TableNames(tables)) + [">", sqlFile])
  {
    ExportIntendedWords(cfg, sqlFile, tables);
  }

  /** Every command the export as written hands to the shell dumps the
      configured database to the file, with the table list turned into the
      words the code produces: none, `Array` glued to the database, or one
      word of all names run together. */
  lemma ExportPassesWrittenTables(cfg: Config, sqlFile: string, tables: Tables, world: seq<ExecResult>)
    requires |world| >= 2 && ReadableTables(tables)
    ensures forall i :: 0 <= i < |Export(cfg, sqlFile, tables, world).commands| ==>
              Words(Export(cfg, sqlFile, tables, world).commands[i])
              == Some(["mysqldump"] + CredentialWords(cfg) + ExportDatabaseWords(cfg.dbName, tables) + [">", sqlFile])
  {
    ExportCommandWords(cfg, sqlFile, tables);
  }
}
