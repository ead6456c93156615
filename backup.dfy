/** `postgres_backup_tabla.py`: copying one table from a source schema to a
    target schema by dumping it, rewriting the schema name in the dump with
    `sed`, and restoring the result, then deleting the two intermediate files.
    The external commands are not run: each step's outcome is a parameter, and
    the working directory is a set of file paths. */
module PostgresBackup {
  import opened Wrappers
  import opened Strings

  // ---------------------------------------------------------------------------
  // Input validation
  // ---------------------------------------------------------------------------

  /** `validar_input`: prompt until an answer passes `str.isalpha`. The
      answers the user types are `answers`; the result is the accepted answer
      and the number of answers rejected before it (`None` when every answer
      is rejected, where the script would keep prompting). */
  method ValidarInput(answers: seq<string>) returns (accepted: Option<string>, rejected: nat)
    ensures accepted.Some? ==> rejected < |answers| && accepted.value == answers[rejected] && IsAlpha(accepted.value)
    ensures accepted.None? ==> rejected == |answers|
    ensures forall j :: 0 <= j < rejected ==> !IsAlpha(answers[j])
  {
    rejected := 0;
    while rejected < |answers|
      invariant rejected <= |answers|
      invariant forall j :: 0 <= j < rejected ==> !IsAlpha(answers[j])
    {
      var valor := answers[rejected];
      if IsAlpha(valor) {
        return Some(valor), rejected;
      }
      rejected := rejected + 1;
    }
    accepted := None;
  }

  /** An accepted identifier holds no character that would end a shell word,
      a `sed` command, a schema qualifier or a file-name suffix. */
  lemma AcceptedIdentifierIsPlain(s: string)
    requires IsAlpha(s)
    ensures ' ' !in s && '/' !in s && '.' !in s && '_' !in s && '\'' !in s && '\n' !in s
    ensures forall i :: 0 <= i < |s| ==> !IsDigit(s[i])
  {
    forall c | c in s ensures IsLetter(c) {
      var i :| 0 <= i < |s| && s[i] == c;
    }
  }

  // ---------------------------------------------------------------------------
  // Artifact names
  // ---------------------------------------------------------------------------

  const BackupSuffix := "_backup.backup"
  const RestoreSuffix := "_restore.sql"

  /** The file the dump is written to. */
  function BackupFile(table: string): string
  {
    table + BackupSuffix
  }

  /** The file the rewritten dump is written to. */
  function RestoreFile(table: string): string
  {
    table + RestoreSuffix
  }

  /** The dump file and the rewritten file never coincide, whatever the two
      table names. */
  lemma ArtifactsNeverCollide(table1: string, table2: string)
    ensures BackupFile(table1) != RestoreFile(table2)
  {
    var b, r := BackupFile(table1), RestoreFile(table2);
    assert b[|b| - 1] == 'p';
    assert r[|r| - 1] == 'l';
  }

  /** Distinct tables give distinct artifact names. */
  lemma ArtifactNamesInjective(table1: string, table2: string)
    ensures BackupFile(table1) == BackupFile(table2) ==> table1 == table2
    ensures RestoreFile(table1) == RestoreFile(table2) ==> table1 == table2
  {
    if BackupFile(table1) == BackupFile(table2) {
      assert table1 == BackupFile(table1)[..|table1|];
      assert table2 == BackupFile(table2)[..|table2|];
    }
    if RestoreFile(table1) == RestoreFile(table2) {
      assert table1 == RestoreFile(table1)[..|table1|];
      assert table2 == RestoreFile(table2)[..|table2|];
    }
  }

  /** For an accepted table name, neither artifact name contains a space or a
      slash, so each is one shell word and names a file in the working
      directory. */
  lemma ArtifactNamesArePlain(table: string)
    requires IsAlpha(table)
    ensures ' ' !in BackupFile(table) && '/' !in BackupFile(table)
    ensures ' ' !in RestoreFile(table) && '/' !in RestoreFile(table)
  {
    AcceptedIdentifierIsPlain(table);
    assert ' ' !in BackupSuffix && '/' !in BackupSuffix;
    assert ' ' !in RestoreSuffix && '/' !in RestoreSuffix;
  }

  // ---------------------------------------------------------------------------
  // Command strings
  // ---------------------------------------------------------------------------

  /** An environment value in an f-string: a missing variable prints as `None`. */
  function Show(v: Option<string>): string
  {
    match v
    case Some(s) => s
    case None => "None"
  }

  /** `schema.table`. */
  function Qualified(schema: string, table: string): string
  {
    schema + "." + table
  }

  /** For accepted identifiers, the schema and the table are the two parts of
      the qualified name. */
  lemma QualifiedParts(schema: string, table: string)
    requires IsAlpha(schema) && IsAlpha(table)
    ensures Split(Qualified(schema, table), '.') == [schema, table]
  {
    AcceptedIdentifierIsPlain(schema);
    AcceptedIdentifierIsPlain(table);
    SplitJoin([schema, table], '.');
    assert Join([schema, table], '.') == schema + ['.'] + Join([table], '.');
  }

  // The commands are written word by word: each is its f-string with the
  // single spaces between words made explicit.

  /** `-e PGPASSWORD='<password>'`'s value word. */
  function PasswordWord(password: Option<string>): string
  {
    "PGPASSWORD='" + Show(password) + "'"
  }

  /** The connection options the dump and the restore share. */
  function ConnectionWords(host: Option<string>, port: Option<string>, user: Option<string>, db: Option<string>): seq<string>
  {
    ["-h", Show(host), "-p", Show(port), "-U", Show(user), "-d", Show(db)]
  }

  /** The words of `backup_table`'s command up to its table filter. */
  function DumpWords(password: Option<string>, host: Option<string>, port: Option<string>,
                     user: Option<string>, db: Option<string>): seq<string>
  {
    ["docker", "run", "--rm", "-e", PasswordWord(password), "postgres:15.8", "pg_dump"]
      + ConnectionWords(host, port, user, db)
  }

  /** The command of `backup_table`. */
  function BackupCommand(password: Option<string>, host: Option<string>, port: Option<string>,
                         user: Option<string>, db: Option<string>, sourceSchema: string, table: string): string
  {
    Join(DumpWords(password, host, port, user, db) + ["-t", Qualified(sourceSchema, table), ">", BackupFile(table)], ' ')
  }

  /** The `s/…/…/g` script given to `sed`, quoted for the shell. */
  function SedScript(sourceSchema: string, targetSchema: string, table: string): string
  {
    "'s/" + Qualified(sourceSchema, table) + "/" + Qualified(targetSchema, table) + "/g'"
  }

  /** The command of `replace_schema`. */
  function SedCommand(sourceSchema: string, targetSchema: string, table: string): string
  {
    Join(["sed", SedScript(sourceSchema, targetSchema, table), BackupFile(table), ">", RestoreFile(table)], ' ')
  }

  /** The `docker -v` argument that mounts the rewritten file into the container. */
  function Mount(table: string): string
  {
    "./" + RestoreFile(table) + ":/" + RestoreFile(table)
  }

  /** The words of `restore_table`'s command after the mount and before `-f`. */
  function PsqlWords(password: Option<string>, host: Option<string>, port: Option<string>,
                     user: Option<string>, db: Option<string>): seq<string>
  {
    ["-e", PasswordWord(password), "postgres:15.8", "psql"] + ConnectionWords(host, port, user, db)
  }

  /** The command of `restore_table`. */
  function RestoreCommand(password: Option<string>, host: Option<string>, port: Option<string>,
                          user: Option<string>, db: Option<string>, table: string): string
  {
    Join(["docker", "run", "--rm", "-v", Mount(table)] + PsqlWords(password, host, port, user, db)
         + ["-f", RestoreFile(table)], ' ')
  }

  /** Splitting a command line whose last words hold no space. */
  lemma SplitTrailingWords(front: seq<string>, back: seq<string>)
    requires |front| >= 1 && |back| >= 1
    requires forall i :: 0 <= i < |back| ==> ' ' !in back[i]
    ensures Split(Join(front + back, ' '), ' ') == Split(Join(front, ' '), ' ') + back
  {
    JoinConcat(front, back, ' ');
    SplitAround(Join(front, ' '), ' ', Join(back, ' '));
    SplitJoin(back, ' ');
  }

  /** The dump's last four words: it is filtered to `source.table` and its
      output is redirected to the backup file. When no setting holds a space,
      the words are exactly those of the f-string. */
  lemma BackupCommandWords(password: Option<string>, host: Option<string>, port: Option<string>,
                           user: Option<string>, db: Option<string>, sourceSchema: string, table: string)
    requires IsAlpha(sourceSchema) && IsAlpha(table)
    ensures var dump := DumpWords(password, host, port, user, db);
            var tail := ["-t", Qualified(sourceSchema, table), ">", BackupFile(table)];
            Split(BackupCommand(password, host, port, user, db, sourceSchema, table), ' ')
            == Split(Join(dump, ' '), ' ') + tail
            && ((forall i :: 0 <= i < |dump| ==> ' ' !in dump[i]) ==>
                  Split(BackupCommand(password, host, port, user, db, sourceSchema, table), ' ') == dump + tail)
  {
    var dump := DumpWords(password, host, port, user, db);
    var tail := ["-t", Qualified(sourceSchema, table), ">", BackupFile(table)];
    AcceptedIdentifierIsPlain(sourceSchema);
    AcceptedIdentifierIsPlain(table);
    ArtifactNamesArePlain(table);
    SplitTrailingWords(dump, tail);
    if forall i :: 0 <= i < |dump| ==> ' ' !in dump[i] {
      SplitJoin(dump, ' ');
    }
  }

  /** The `sed` command reads the file the dump wrote and writes the file the
      restore reads; its script replaces `source.table` by `target.table`. */
  lemma SedCommandWords(sourceSchema: string, targetSchema: string, table: string)
    requires IsAlpha(sourceSchema) && IsAlpha(targetSchema) && IsAlpha(table)
    ensures Split(SedCommand(sourceSchema, targetSchema, table), ' ')
         == ["sed", SedScript(sourceSchema, targetSchema, table), BackupFile(table), ">", RestoreFile(table)]
    ensures Split(SedScript(sourceSchema, targetSchema, table), '/')
         == ["'s", Qualified(sourceSchema, table), Qualified(targetSchema, table), "g'"]
  {
    AcceptedIdentifierIsPlain(sourceSchema);
    AcceptedIdentifierIsPlain(targetSchema);
    AcceptedIdentifierIsPlain(table);
    ArtifactNamesArePlain(table);
    var script := SedScript(sourceSchema, targetSchema, table);
    assert ' ' !in script;
    SplitJoin(["sed", script, BackupFile(table), ">", RestoreFile(table)], ' ');
    var parts := ["'s", Qualified(sourceSchema, table), Qualified(targetSchema, table), "g'"];
    assert Join(parts, '/') == script by {
      assert Join(parts[2..], '/') == Qualified(targetSchema, table) + "/" + "g'";
      assert Join(parts[1..], '/') == Qualified(sourceSchema, table) + "/" + Join(parts[2..], '/');
    }
    SplitJoin(parts, '/');
  }

  /** The mount binds `./<table>_restore.sql` to `/<table>_restore.sql`. */
  lemma MountParts(table: string)
    requires IsAlpha(table)
    ensures Split(Mount(table), ':') == ["./" + RestoreFile(table), "/" + RestoreFile(table)]
  {
    AcceptedIdentifierIsPlain(table);
    var parts := ["./" + RestoreFile(table), "/" + RestoreFile(table)];
    assert ':' !in table;
    assert ':' !in RestoreSuffix;
    assert ':' !in parts[0] && ':' !in parts[1];
    assert Join(parts, ':') == Mount(table);
    SplitJoin(parts, ':');
  }

  /** The restore's leading words hold no space. */
  lemma RestoreHeadPlain(table: string)
    requires IsAlpha(table)
    ensures forall i :: 0 <= i < 5 ==> ' ' !in ["docker", "run", "--rm", "-v", Mount(table)][i]
  {
    ArtifactNamesArePlain(table);
    AcceptedIdentifierIsPlain(table);
    assert ' ' !in Mount(table);
  }

  /** Splitting a command line whose first words hold no space. */
  lemma SplitLeadingWords(front: seq<string>, back: seq<string>)
    requires |front| >= 1 && |back| >= 1
    requires forall i :: 0 <= i < |front| ==> ' ' !in front[i]
    ensures Split(Join(front + back, ' '), ' ') == front + Split(Join(back, ' '), ' ')
  {
    JoinConcat(front, back, ' ');
    SplitAround(Join(front, ' '), ' ', Join(back, ' '));
    SplitJoin(front, ' ');
  }

  /** The restore mounts the rewritten file and runs it with `psql -f`. */
  lemma RestoreCommandWords(password: Option<string>, host: Option<string>, port: Option<string>,
                            user: Option<string>, db: Option<string>, table: string)
    requires IsAlpha(table)
    ensures var words := Split(RestoreCommand(password, host, port, user, db, table), ' ');
            |words| >= 7
            && words[..5] == ["docker", "run", "--rm", "-v", Mount(table)]
            && words[|words| - 2..] == ["-f", RestoreFile(table)]
  {
    var head := ["docker", "run", "--rm", "-v", Mount(table)];
    var middle := PsqlWords(password, host, port, user, db);
    var tail := ["-f", RestoreFile(table)];
    ArtifactNamesArePlain(table);
    RestoreHeadPlain(table);
    SplitTrailingWords(head + middle, tail);
    SplitLeadingWords(head, middle);
    var words := head + Split(Join(middle, ' '), ' ') + tail;
    assert words[..5] == head;
    assert words[|words| - 2..] == tail;
  }

  /** The three commands agree with one another: the dump writes the file
      `sed` reads, `sed` writes the file `psql` runs, the pattern `sed`
      looks for is the table the dump was filtered to, and the replacement
      keeps the table and changes only the schema. */
  lemma CommandsAgree(password: Option<string>, host: Option<string>, port: Option<string>,
                      user: Option<string>, db: Option<string>,
                      sourceSchema: string, targetSchema: string, table: string)
    requires IsAlpha(sourceSchema) && IsAlpha(targetSchema) && IsAlpha(table)
    ensures var dump := Split(BackupCommand(password, host, port, user, db, sourceSchema, table), ' ');
            var sed := Split(SedCommand(sourceSchema, targetSchema, table), ' ');
            var restore := Split(RestoreCommand(password, host, port, user, db, table), ' ');
            var script := Split(SedScript(sourceSchema, targetSchema, table), '/');
            |dump| >= 4 && |sed| == 5 && |restore| >= 2 && |script| == 4
            && sed[1] == SedScript(sourceSchema, targetSchema, table)
            && dump[|dump| - 2] == ">" && sed[3] == ">"
            && dump[|dump| - 1] == sed[2]
            && sed[4] == restore[|restore| - 1]
            && dump[|dump| - 3] == script[1]
            && Split(script[1], '.') == [sourceSchema, table]
            && Split(script[2], '.') == [targetSchema, table]
  {
    BackupCommandWords(password, host, port, user, db, sourceSchema, table);
    SedCommandWords(sourceSchema, targetSchema, table);
    RestoreCommandWords(password, host, port, user, db, table);
    QualifiedParts(sourceSchema, table);
    QualifiedParts(targetSchema, table);
  }

  // ---------------------------------------------------------------------------
  // What the `sed` script does to the dump
  // ---------------------------------------------------------------------------

  /** The script's pattern `source.table` matches at `i`: the `.` is a
      regular-expression wildcard, which matches any character but the end of
      a line. */
  predicate SedMatchesAt(text: string, i: nat, sourceSchema: string, table: string)
  {
    var dot := i + |sourceSchema|;
    dot + 1 + |table| <= |text|
    && text[i..dot] == sourceSchema && text[dot] != '\n' && text[dot + 1..dot + 1 + |table|] == table
  }

  /** `source.table` occurs literally at `i`. */
  predicate LiteralMatchesAt(text: string, i: nat, sourceSchema: string, table: string)
  {
    SedMatchesAt(text, i, sourceSchema, table) && text[i + |sourceSchema|] == '.'
  }

  /** `sed 's/source.table/target.table/g'` as written: every leftmost,
      non-overlapping match of the pattern, scanning left to right, becomes
      `target.table`. */
  function SedRewrite(text: string, sourceSchema: string, targetSchema: string, table: string): (r: string)
    requires IsAlpha(sourceSchema) && IsAlpha(targetSchema) && IsAlpha(table)
    decreases |text|
  {
    if text == [] then []
    else if SedMatchesAt(text, 0, sourceSchema, table) then
      Qualified(targetSchema, table) + SedRewrite(text[|sourceSchema| + 1 + |table|..], sourceSchema, targetSchema, table)
    else [text[0]] + SedRewrite(text[1..], sourceSchema, targetSchema, table)
  }

  /** The substitution with the dot escaped (`s/source\.table/…/g`): only
      literal occurrences of `source.table` are replaced. */
  function LiteralRewrite(text: string, sourceSchema: string, targetSchema: string, table: string): (r: string)
    requires IsAlpha(sourceSchema) && IsAlpha(targetSchema) && IsAlpha(table)
    decreases |text|
  {
    if text == [] then []
    else if LiteralMatchesAt(text, 0, sourceSchema, table) then
      Qualified(targetSchema, table) + LiteralRewrite(text[|sourceSchema| + 1 + |table|..], sourceSchema, targetSchema, table)
    else [text[0]] + LiteralRewrite(text[1..], sourceSchema, targetSchema, table)
  }

  lemma MatchShift(text: string, i: nat, k: nat, sourceSchema: string, table: string)
    requires k <= |text|
    ensures SedMatchesAt(text[k..], i, sourceSchema, table) <==> SedMatchesAt(text, i + k, sourceSchema, table)
    ensures LiteralMatchesAt(text[k..], i, sourceSchema, table) <==> LiteralMatchesAt(text, i + k, sourceSchema, table)
  {
    var dot := i + |sourceSchema|;
    if dot + 1 + |table| <= |text| - k {
      assert text[k..][i..dot] == text[i + k..dot + k];
      assert text[k..][dot + 1..dot + 1 + |table|] == text[dot + k + 1..dot + k + 1 + |table|];
    }
  }

  /** The escaped substitution leaves a dump with no literal `source.table`
      unchanged. */
  lemma {:induction false} LiteralRewriteUnchanged(text: string, sourceSchema: string, targetSchema: string, table: string)
    requires IsAlpha(sourceSchema) && IsAlpha(targetSchema) && IsAlpha(table)
    requires forall i: nat :: i < |text| ==> !LiteralMatchesAt(text, i, sourceSchema, table)
    ensures LiteralRewrite(text, sourceSchema, targetSchema, table) == text
  {
    if text != [] {
      forall i: nat | i < |text[1..]| ensures !LiteralMatchesAt(text[1..], i, sourceSchema, table) {
        MatchShift(text, i, 1, sourceSchema, table);
      }
      LiteralRewriteUnchanged(text[1..], sourceSchema, targetSchema, table);
      assert [text[0]] + text[1..] == text;
    }
  }

  /** The escaped substitution replaces a literal occurrence at the start of
      the dump by `target.table` and goes on after it. */
  lemma LiteralRewriteReplaces(rest: string, sourceSchema: string, targetSchema: string, table: string)
    requires IsAlpha(sourceSchema) && IsAlpha(targetSchema) && IsAlpha(table)
    ensures LiteralRewrite(Qualified(sourceSchema, table) + rest, sourceSchema, targetSchema, table)
         == Qualified(targetSchema, table) + LiteralRewrite(rest, sourceSchema, targetSchema, table)
  {
    var text := Qualified(sourceSchema, table) + rest;
    var n := |sourceSchema|;
    assert text[..n] == sourceSchema;
    assert text[n] == '.';
    assert text[n + 1..n + 1 + |table|] == table;
    assert text[n + 1 + |table|..] == rest;
  }

  /** Where every match of the wildcard pattern is a literal occurrence, the
      script as written and the escaped one agree. */
  lemma {:induction false} RewritesAgree(text: string, sourceSchema: string, targetSchema: string, table: string)
    requires IsAlpha(sourceSchema) && IsAlpha(targetSchema) && IsAlpha(table)
    requires forall i: nat :: i < |text| && SedMatchesAt(text, i, sourceSchema, table) ==> text[i + |sourceSchema|] == '.'
    ensures SedRewrite(text, sourceSchema, targetSchema, table) == LiteralRewrite(text, sourceSchema, targetSchema, table)
    decreases |text|
  {
    if text != [] {
      var k := if SedMatchesAt(text, 0, sourceSchema, table) then |sourceSchema| + 1 + |table| else 1;
      forall i: nat | i < |text[k..]| && SedMatchesAt(text[k..], i, sourceSchema, table)
        ensures text[k..][i + |sourceSchema|] == '.'
      {
        MatchShift(text, i, k, sourceSchema, table);
      }
      RewritesAgree(text[k..], sourceSchema, targetSchema, table);
    }
  }

  /** The pattern matches `source`, any one character but a newline, then
      `table`, and `sed` replaces all of it. */
  lemma WildcardMatch(sourceSchema: string, c: char, targetSchema: string, table: string)
    requires IsAlpha(sourceSchema) && IsAlpha(targetSchema) && IsAlpha(table)
    requires c != '\n'
    ensures SedRewrite(sourceSchema + [c] + table, sourceSchema, targetSchema, table) == Qualified(targetSchema, table)
  {
    var text := sourceSchema + [c] + table;
    var n := |sourceSchema|;
    assert text[..n] == sourceSchema;
    assert text[n + 1..n + 1 + |table|] == table;
    assert SedMatchesAt(text, 0, sourceSchema, table);
    assert text[n + 1 + |table|..] == [];
  }

  /** The script as written also rewrites `public_readings`, which is not the
      table `public.readings`, into `test.readings`. The strings are
      parameters fixed by the preconditions, which keeps the verifier from
      unfolding `SedRewrite` over the literal text. */
  lemma SedRewriteWildcardExample(text: string, source: string, target: string, table: string)
    requires text == "public_readings"
    requires source == "public" && target == "test" && table == "readings"
    ensures SedRewrite(text, source, target, table) == "test.readings"
  {
    assert IsAlpha(source) && IsAlpha(target) && IsAlpha(table);
    assert text == source + ['_'] + table;
    WildcardMatch(source, '_', target, table);
  }

  /** The escaped script leaves `public_readings` alone. */
  lemma LiteralRewriteExample()
    ensures LiteralRewrite("public_readings", "public", "test", "readings") == "public_readings"
  {
    var text := "public_readings";
    assert IsAlpha("public") && IsAlpha("test") && IsAlpha("readings");
    assert forall j :: 0 <= j < |text| ==> text[j] != '.';
    forall i: nat | i < |text| ensures !LiteralMatchesAt(text, i, "public", "readings") {
      if i + 6 < |text| {
        assert text[i + 6] != '.';
      }
    }
    LiteralRewriteUnchanged(text, "public", "test", "readings");
  }

  // ---------------------------------------------------------------------------
  // The working directory and the steps
  // ---------------------------------------------------------------------------

  /** The regular files of the working directory. */
  class FileSystem {
    var files: set<string>

    constructor (files: set<string>)
      ensures this.files == files
    {
      this.files := files;
    }
  }

  /** How a step ends: the command exits with status 0; it exits non-zero
      (`CalledProcessError`, caught by the step); or another exception
      escapes the step, such as an interrupt while `subprocess.run` waits or
      a failing `print` after it. In the last two, `outputCreated` says
      whether the shell's `>` redirection had already created the output
      file; a command that exits with status 0 always has. */
  datatype StepOutcome = Completed | ProcessFailed(outputCreated: bool) | Raised(outputCreated: bool)

  /** Whether the step's output file exists once the step has ended. */
  predicate CreatesOutput(outcome: StepOutcome)
  {
    outcome.Completed? || outcome.outputCreated
  }

  /** The files after a step whose shell command redirects into `output`. */
  function AfterRedirect(files: set<string>, outcome: StepOutcome, output: string): (r: set<string>)
    ensures output in r <==> CreatesOutput(outcome) || output in files
    ensures r == files + {output} <==> CreatesOutput(outcome) || output in files
    ensures forall p :: p != output ==> (p in r <==> p in files)
  {
    if CreatesOutput(outcome) then files + {output} else files
  }

  /** What `cleanup_files` reports for one path. */
  datatype Removal = Removed | Missing | RemoveFailed

  /** The report for `path`: missing paths are only reported; a present path
      is removed unless its removal raises. */
  function RemovalOf(files: set<string>, undeletable: set<string>, path: string): (r: Removal)
    ensures r == Missing <==> path !in files
    ensures r == RemoveFailed <==> path in files && path in undeletable
  {
    if path !in files then Missing else if path in undeletable then RemoveFailed else Removed
  }

  /** The files after cleanup of `paths`: those that could be removed are gone. */
  function Cleaned(files: set<string>, undeletable: set<string>, paths: set<string>): set<string>
  {
    files - (paths - undeletable)
  }

  /** The artifacts of a table. */
  function Artifacts(table: string): set<string>
  {
    {BackupFile(table), RestoreFile(table)}
  }

  /** Cleanup leaves no removable artifact and every other file as it was. */
  lemma CleanupEffect(files: set<string>, undeletable: set<string>, table: string)
    ensures forall p :: p in Artifacts(table) && p !in undeletable ==> p !in Cleaned(files, undeletable, Artifacts(table))
    ensures forall p :: p !in Artifacts(table) ==> (p in Cleaned(files, undeletable, Artifacts(table)) <==> p in files)
    ensures forall p :: p in Artifacts(table) && p in undeletable ==> (p in Cleaned(files, undeletable, Artifacts(table)) <==> p in files)
  {
  }

  /** Cleaning up twice leaves the same files as cleaning up once. */
  lemma CleanupIdempotent(files: set<string>, undeletable: set<string>, paths: set<string>)
    ensures Cleaned(Cleaned(files, undeletable, paths), undeletable, paths) == Cleaned(files, undeletable, paths)
  {
  }

  /** The steps of the main block, in the order they may run. */
  datatype Step = Backup | ReplaceSchema | Restore | Cleanup

  /** The three outcomes the main block's steps meet. */
  datatype Outcomes = Outcomes(backup: StepOutcome, replace: StepOutcome, restore: StepOutcome)

  /** The steps the main block attempts: each step runs unless an earlier one
      raised something other than `CalledProcessError`; cleanup always runs. */
  function Attempted(outcomes: Outcomes): (steps: seq<Step>)
    ensures 2 <= |steps| <= 4
    ensures steps[0] == Backup && steps[|steps| - 1] == Cleanup
    ensures steps[..|steps| - 1] == [Backup, ReplaceSchema, Restore][..|steps| - 1]
    ensures ReplaceSchema in steps <==> !outcomes.backup.Raised?
    ensures Restore in steps <==> !outcomes.backup.Raised? && !outcomes.replace.Raised?
  {
    if outcomes.backup.Raised? then [Backup, Cleanup]
    else if outcomes.replace.Raised? then [Backup, ReplaceSchema, Cleanup]
    else [Backup, ReplaceSchema, Restore, Cleanup]
  }

  /** The files when cleanup starts: the backup step has run, and the
      replace step too unless the backup step raised. The restore step
      writes no local file. */
  function BeforeCleanup(files: set<string>, table: string, outcomes: Outcomes): set<string>
  {
    var afterBackup := AfterRedirect(files, outcomes.backup, BackupFile(table));
    if outcomes.backup.Raised? then afterBackup
    else AfterRedirect(afterBackup, outcomes.replace, RestoreFile(table))
  }

  /** The files once the main block has finished. */
  function FinalFiles(files: set<string>, table: string, outcomes: Outcomes, undeletable: set<string>): set<string>
  {
    Cleaned(BeforeCleanup(files, table, outcomes), undeletable, Artifacts(table))
  }

  /** An artifact is there when cleanup starts exactly when it was there
      before the run or the step that writes it ran and created it. */
  lemma ArtifactsBeforeCleanup(files: set<string>, table: string, outcomes: Outcomes)
    ensures BackupFile(table) in BeforeCleanup(files, table, outcomes)
        <==> BackupFile(table) in files || CreatesOutput(outcomes.backup)
    ensures RestoreFile(table) in BeforeCleanup(files, table, outcomes)
        <==> RestoreFile(table) in files || (!outcomes.backup.Raised? && CreatesOutput(outcomes.replace))
  {
    ArtifactsNeverCollide(table, table);
  }

  /** Whatever the outcomes, the run leaves no removable artifact behind,
      an artifact that cannot be removed as cleanup found it, and every other
      file of the directory as it was. */
  lemma RunLeavesNoArtifacts(files: set<string>, table: string, outcomes: Outcomes, undeletable: set<string>)
    ensures forall p :: p in Artifacts(table) && p !in undeletable ==> p !in FinalFiles(files, table, outcomes, undeletable)
    ensures forall p :: p !in Artifacts(table) ==> (p in FinalFiles(files, table, outcomes, undeletable) <==> p in files)
    ensures forall p :: p in Artifacts(table) && p in undeletable ==>
              (p in FinalFiles(files, table, outcomes, undeletable) <==> p in BeforeCleanup(files, table, outcomes))
  {
  }

  /** Running the whole job again with the same outcomes changes nothing more. */
  lemma RunIdempotent(files: set<string>, table: string, outcomes: Outcomes, undeletable: set<string>)
    ensures var once := FinalFiles(files, table, outcomes, undeletable);
            FinalFiles(once, table, outcomes, undeletable) == once
  {
  }

  /** One backup-and-restore job (`PostgresBackupRestore`). */
  class PostgresBackupRestore {
    const pgPassword: Option<string>
    const pgHost: Option<string>
    const pgPort: Option<string>
    const pgUser: Option<string>
    const pgDb: Option<string>
    const sourceSchema: string
    const targetSchema: string
    const tableName: string

    /** The connection settings come from the environment (`os.getenv`);
        a missing variable is `None`. */
    constructor (env: map<string, string>, tableName: string,
                 sourceSchema: string := "public", targetSchema: string := "public_test")
      ensures pgPassword == (if "PGPASSWORD" in env then Some(env["PGPASSWORD"]) else None)
      ensures pgHost == (if "PG_HOST" in env then Some(env["PG_HOST"]) else None)
      ensures pgPort == (if "PG_PORT" in env then Some(env["PG_PORT"]) else None)
      ensures pgUser == (if "PG_USER" in env then Some(env["PG_USER"]) else None)
      ensures pgDb == (if "PG_DB" in env then Some(env["PG_DB"]) else None)
      ensures this.sourceSchema == sourceSchema && this.targetSchema == targetSchema && this.tableName == tableName
    {
      pgPassword := if "PGPASSWORD" in env then Some(env["PGPASSWORD"]) else None;
      pgHost := if "PG_HOST" in env then Some(env["PG_HOST"]) else None;
      pgPort := if "PG_PORT" in env then Some(env["PG_PORT"]) else None;
      pgUser := if "PG_USER" in env then Some(env["PG_USER"]) else None;
      pgDb := if "PG_DB" in env then Some(env["PG_DB"]) else None;
      this.sourceSchema := sourceSchema;
      this.targetSchema := targetSchema;
      this.tableName := tableName;
    }

    /** `backup_table`: runs the dump, which writes the backup file. */
    method BackupTable(fs: FileSystem, outcome: StepOutcome) returns (command: string, raised: bool)
      modifies fs
      ensures command == BackupCommand(pgPassword, pgHost, pgPort, pgUser, pgDb, sourceSchema, tableName)
      ensures raised <==> outcome.Raised?
      ensures fs.files == AfterRedirect(old(fs.files), outcome, BackupFile(tableName))
    {
      command := BackupCommand(pgPassword, pgHost, pgPort, pgUser, pgDb, sourceSchema, tableName);
      raised := outcome.Raised?;
      if CreatesOutput(outcome) {
        fs.files := fs.files + {BackupFile(tableName)};
      }
    }

    /** `replace_schema`: runs `sed`, which writes the restore file. */
    method ReplaceSchema(fs: FileSystem, outcome: StepOutcome) returns (command: string, raised: bool)
      modifies fs
      ensures command == SedCommand(sourceSchema, targetSchema, tableName)
      ensures raised <==> outcome.Raised?
      ensures fs.files == AfterRedirect(old(fs.files), outcome, RestoreFile(tableName))
    {
      command := SedCommand(sourceSchema, targetSchema, tableName);
      raised := outcome.Raised?;
      if CreatesOutput(outcome) {
        fs.files := fs.files + {RestoreFile(tableName)};
      }
    }

    /** `restore_table`: runs `psql` on the restore file; no local file changes. */
    method RestoreTable(outcome: StepOutcome) returns (command: string, raised: bool)
      ensures command == RestoreCommand(pgPassword, pgHost, pgPort, pgUser, pgDb, tableName)
      ensures raised <==> outcome.Raised?
    {
      command := RestoreCommand(pgPassword, pgHost, pgPort, pgUser, pgDb, tableName);
      raised := outcome.Raised?;
    }

    /** `cleanup_files`: for the backup file and then the restore file, remove
        it if present; a missing file is reported, and a removal that raises
        (the paths in `undeletable`) is reported without stopping the loop. */
    method CleanupFiles(fs: FileSystem, undeletable: set<string>) returns (report: seq<Removal>)
      modifies fs
      ensures fs.files == Cleaned(old(fs.files), undeletable, Artifacts(tableName))
      ensures report == [RemovalOf(old(fs.files), undeletable, BackupFile(tableName)),
                         RemovalOf(old(fs.files), undeletable, RestoreFile(tableName))]
    {
      var paths := [BackupFile(tableName), RestoreFile(tableName)];
      ArtifactsNeverCollide(tableName, tableName);
      report := [];
      for k := 0 to |paths|
        invariant fs.files == Cleaned(old(fs.files), undeletable, set i | 0 <= i < k :: paths[i])
        invariant report == seq(k, i requires 0 <= i < k => RemovalOf(old(fs.files), undeletable, paths[i]))
      {
        var filePath := paths[k];
        if filePath in fs.files {
          if filePath in undeletable {
            report := report + [RemoveFailed];
          } else {
            fs.files := fs.files - {filePath};
            report := report + [Removed];
          }
        } else {
          report := report + [Missing];
        }
        assert (set i | 0 <= i < k + 1 :: paths[i]) == (set i | 0 <= i < k :: paths[i]) + {filePath};
      }
      assert paths[0] in (set i | 0 <= i < 2 :: paths[i]);
      assert paths[1] in (set i | 0 <= i < 2 :: paths[i]);
      assert (set i | 0 <= i < 2 :: paths[i]) == Artifacts(tableName);
    }
  }

  /** The `__main__` block after the prompts: backup, replace, restore inside
      `try`, with the first non-`CalledProcessError` exception ending the `try`
      (and printed by `except Exception`), then cleanup in `finally`. */
  method RunJob(job: PostgresBackupRestore, fs: FileSystem, outcomes: Outcomes, undeletable: set<string>)
    returns (steps: seq<Step>, commands: seq<string>, report: seq<Removal>)
    modifies fs
    ensures steps == Attempted(outcomes)
    ensures fs.files == FinalFiles(old(fs.files), job.tableName, outcomes, undeletable)
    ensures |commands| == |steps| - 1
    ensures commands[0] == BackupCommand(job.pgPassword, job.pgHost, job.pgPort, job.pgUser, job.pgDb, job.sourceSchema, job.tableName)
    ensures |commands| >= 2 ==> commands[1] == SedCommand(job.sourceSchema, job.targetSchema, job.tableName)
    ensures |commands| >= 3 ==> commands[2] == RestoreCommand(job.pgPassword, job.pgHost, job.pgPort, job.pgUser, job.pgDb, job.tableName)
    ensures report == [RemovalOf(BeforeCleanup(old(fs.files), job.tableName, outcomes), undeletable, BackupFile(job.tableName)),
                       RemovalOf(BeforeCleanup(old(fs.files), job.tableName, outcomes), undeletable, RestoreFile(job.tableName))]
  {
    var command, raised := job.BackupTable(fs, outcomes.backup);
    steps, commands := [Backup], [command];
    if !raised {
      command, raised := job.ReplaceSchema(fs, outcomes.replace);
      steps, commands := steps + [ReplaceSchema], commands + [command];
      if !raised {
        command, raised := job.RestoreTable(outcomes.restore);
        steps, commands := steps + [Restore], commands + [command];
      }
    }
    report := job.CleanupFiles(fs, undeletable);
    steps := steps + [Cleanup];
  }
}
