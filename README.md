# Termonorte vendor files and schema-to-schema table copy, in Dafny

This project models the two pieces of real logic in a set of one-shot data
scripts for a metering analytics environment and proves properties of them.

- **Vendor file classification and dating** (`datos_termonorte.py`, module
  `Termonorte` in `termonorte.dfy`). A directory listing is filtered to
  `.txa`, `.tx2` and `.txf` files and grouped by type. The type is the file
  name with its digits removed, cut at its first dot. Each file is dated by
  the last four digits before its first dot, read as month and day of 2024
  with the rules of Python's `strptime`. Its version is the text after its
  last dot. The files of each type are then loaded, and a file that fails is
  skipped. For `tdia_sis`, year, month and day columns are added and the
  version is upper-cased. The classification loop and the loading loop are
  methods with loop invariants, proved equal to specification functions.
- **Table copy between schemas** (`postgres_backup_tabla.py`, module
  `PostgresBackup` in `backup.dfy`). Identifiers are accepted by
  `str.isalpha`. The two artifact names derive from the table name. The
  `pg_dump`, `sed` and `psql` command lines are built as strings. The main
  block runs backup, schema replacement and restore inside `try`, then
  cleanup in `finally`. The job is a class with the script's fields. The
  working directory is a `FileSystem` object holding a set of paths. Each
  external command's outcome is a parameter: exit 0, non-zero exit (the
  step catches `CalledProcessError`), or another exception.
- `strings.dfy` (module `Strings`) holds the parts of Python's `str` the
  scripts use: `split` with one separator (with `Join` as its inverse,
  proved both ways), `isdigit`, `isalpha`, `upper` and `endswith`, all over
  ASCII. `wrappers.dfy` holds `Option` and `Result`.

Two behaviours of the backup script are easy to misread, and the model
follows the script in both:

- A step whose command exits non-zero raises `CalledProcessError`, which the
  step itself catches and prints, so the next step still runs. Only another
  exception skips the remaining steps (postgres_backup_tabla.py:39-43,
  120-125); cleanup runs in every case.
- The `sed` pattern `source.table` is a regular expression, and its `.`
  matches any character. See "## Findings".

## Model

| member | source | states |
|---|---|---|
| Termonorte.GroupKey | datos_termonorte.py:33-34 | the key holds no digit and no `.`; it is the digit-stripped name up to, and not including, that name's first `.` |
| Termonorte.Members | datos_termonorte.py:31-37 | reference definition of a group: exactly the listed data files with that key, in listing order |
| Termonorte.ClassifyIsGrouping | datos_termonorte.py:30-37 | the dictionary the loop builds has a key exactly when its group is non-empty, and maps it to exactly that group |
| Termonorte.ClassifyFiles | datos_termonorte.py:30-37 | the loop over the listing builds `Classify(listing)`: each key maps to its data files in listing order, and only keys with files exist |
| Termonorte.ClassificationPartitions | datos_termonorte.py:31-37 | every file in a group is a listed data file of that key; every listed data file is in its own key's group; no group is empty; no key contains a digit or a `.` |
| Termonorte.MonthField | datos_termonorte.py:48 | what `%m` accepts always denotes a month 1..12 |
| Termonorte.DayField | datos_termonorte.py:48 | what `%d` accepts always denotes a day 1..31 |
| Termonorte.TwoDigitFields | datos_termonorte.py:48 | two-digit fields: `%m` accepts exactly 01..12 and `%d` exactly 01..31, with their decimal values |
| Termonorte.ParseDate | datos_termonorte.py:48 | a parsed date is always in 2024 and is a real calendar date |
| Termonorte.NameDigits | datos_termonorte.py:42-44 | the digits of the name's base (before its first dot) are all decimal digits |
| Termonorte.ExtractDate | datos_termonorte.py:40-48 | a successful extraction yields a valid date of the year 2024 |
| Termonorte.ExtractDateLastFour | datos_termonorte.py:42-48 | with at least four digits, month and day are the last four digits, and the name is accepted exactly when they form a date of 2024 |
| Termonorte.ExtractDateThree | datos_termonorte.py:44-48 | with exactly three digits, the month is two digits and the day one digit, accepted exactly when they form a date |
| Termonorte.ExtractDateTooFew | datos_termonorte.py:44-48 | with fewer than three digits the date never parses |
| Termonorte.NameDigitsOf | datos_termonorte.py:42-44 | for a name made of a digit-free type, digits, `.` and an extension, the date digits are those digits |
| Termonorte.GroupKeyOf | datos_termonorte.py:33-34 | for such a name with a digit-free extension, the key is the type |
| Termonorte.DatedName | datos_termonorte.py:40-48 | such a name is dated by its last four digits exactly when they form a 2024 date |
| Termonorte.CombExample | datos_termonorte.py:41-48 | `COMB140101.txa` has key `COMB` and date 2024-01-01 |
| Termonorte.LeapDayExample | datos_termonorte.py:47-48 | `0229` gives 2024-02-29, since 2024 is a leap year |
| Termonorte.DayOutOfMonthExample | datos_termonorte.py:48 | `0230` raises |
| Termonorte.MonthThirteenExample | datos_termonorte.py:48 | month `13` raises |
| Termonorte.DayZeroExample | datos_termonorte.py:48 | day `00` raises |
| Termonorte.Version | datos_termonorte.py:62 | the version holds no `.` |
| Termonorte.VersionAfterLastDot | datos_termonorte.py:62 | the version of a name `stem.ext` whose `ext` has no dot is `ext` |
| Termonorte.DataFileVersion | datos_termonorte.py:62 | for a data file the version is its extension `txa`, `tx2` or `txf`, and upper-cased it is `TXA`, `TX2` or `TXF` |
| Termonorte.LoadFile | datos_termonorte.py:54-68 | a file yields a frame exactly when it can be read and its date parses |
| Termonorte.TypeFrames | datos_termonorte.py:53-68 | the frames of a type come from its files in order; each loaded file is there and every frame is a loaded file of the group; a failing file is skipped without losing the others |
| Termonorte.LoadDataframes | datos_termonorte.py:51-71 | the loop over the types builds exactly `Dataframes`: a type is present only with a non-empty list of frames |
| Termonorte.DataframesPresence | datos_termonorte.py:70-71 | a type has a data frame exactly when one of its files can be read and has a valid date |
| Termonorte.TdiaSis | datos_termonorte.py:74-80 | the `tdia_sis` rows exist exactly when that type was loaded, with one row per frame |
| Termonorte.TdiaSisRows | datos_termonorte.py:74-92 | from any listing, each `tdia_sis` row has year 2024, a valid month and day equal to its `fechaoperacion`, and version `TXA`, `TX2` or `TXF` |
| Strings.Split | datos_termonorte.py:34 | `str.split` returns at least one piece, no piece holds the separator, and the first piece is the text before the first separator |
| Strings.SplitJoin | datos_termonorte.py:34 | splitting a join of separator-free pieces gives them back |
| Strings.JoinSplit | datos_termonorte.py:34 | joining the pieces of a split gives the text back |
| Strings.StripDigits | datos_termonorte.py:33 | removing digits leaves no digit |
| Strings.Digits | datos_termonorte.py:44 | keeping digits leaves only digits |
| Strings.DigitsPartition | datos_termonorte.py:33 | every character goes to exactly one of the digits and the rest: their multisets add up to the text's |
| Termonorte.KeyIsBaseWithoutDigits | datos_termonorte.py:33-34 | the type key is the part of the name before its first `.` with its digits removed |
| Termonorte.KeyAndDigitsPartitionBase | datos_termonorte.py:33-44 | the type key and the digits the date is read from hold each character of the name's part before its first `.` exactly once |
| PostgresBackup.ValidarInput | postgres_backup_tabla.py:104-110 | the accepted answer is the first answer that passes `isalpha`; all earlier answers fail it |
| PostgresBackup.AcceptedIdentifierIsPlain | postgres_backup_tabla.py:107 | an accepted identifier has no space, `/`, `.`, `_`, quote, newline or digit |
| PostgresBackup.ArtifactsNeverCollide | postgres_backup_tabla.py:90-91 | the backup file name never equals a restore file name |
| PostgresBackup.ArtifactNamesInjective | postgres_backup_tabla.py:90-91 | distinct tables give distinct backup names and distinct restore names |
| PostgresBackup.ArtifactNamesArePlain | postgres_backup_tabla.py:36 | for an accepted table, each artifact name is one shell word without a directory part |
| PostgresBackup.QualifiedParts | postgres_backup_tabla.py:35 | `schema.table` splits back into schema and table |
| PostgresBackup.BackupCommandWords | postgres_backup_tabla.py:26-37 | the dump's last words are `-t source.table > <table>_backup.backup`; with space-free settings the words are exactly the f-string's |
| PostgresBackup.SedCommandWords | postgres_backup_tabla.py:50-53 | the `sed` command reads the backup file and writes the restore file; its script is `s`, `source.table`, `target.table`, `g` |
| PostgresBackup.MountParts | postgres_backup_tabla.py:68 | the mount binds `./<table>_restore.sql` to `/<table>_restore.sql` |
| PostgresBackup.RestoreCommandWords | postgres_backup_tabla.py:66-77 | the restore starts `docker run --rm -v <mount>` and ends `-f <table>_restore.sql` |
| PostgresBackup.CommandsAgree | postgres_backup_tabla.py:35-76 | the dump writes what `sed` reads; `sed` writes what `psql` runs; the `sed` pattern is the dumped table; the replacement keeps the table and changes only the schema |
| PostgresBackup.SedRewriteWildcardExample | postgres_backup_tabla.py:51 | as written, `sed` turns `public_readings` into `test.readings` |
| PostgresBackup.LiteralRewriteUnchanged | postgres_backup_tabla.py:51 | the escaped substitution leaves a dump without a literal `source.table` unchanged |
| PostgresBackup.LiteralRewriteReplaces | postgres_backup_tabla.py:51 | the escaped substitution replaces a literal `source.table` by `target.table` and continues after it |
| PostgresBackup.LiteralRewriteExample | postgres_backup_tabla.py:51 | the escaped substitution leaves `public_readings` alone |
| PostgresBackup.RewritesAgree | postgres_backup_tabla.py:51 | where every wildcard match is a literal occurrence, the written and escaped substitutions agree |
| PostgresBackup.RemovalOf | postgres_backup_tabla.py:93-101 | a path is reported missing exactly when absent, and as failed exactly when present but not removable |
| PostgresBackup.CleanupEffect | postgres_backup_tabla.py:93-101 | after cleanup no removable artifact remains, every other file is unchanged, and an unremovable artifact stays as it was |
| PostgresBackup.CleanupIdempotent | postgres_backup_tabla.py:93-99 | cleaning up twice leaves the same files as once |
| PostgresBackup.Attempted | postgres_backup_tabla.py:120-127 | steps run as a prefix of backup, replace, restore, and cleanup always runs last; replace runs exactly when backup did not raise; restore runs exactly when neither earlier step raised |
| PostgresBackup.ArtifactsBeforeCleanup | postgres_backup_tabla.py:120-125 | when cleanup starts, the backup file is there exactly when it was before or the dump created it, and the restore file exactly when it was before or `sed` ran and created it |
| PostgresBackup.RunLeavesNoArtifacts | postgres_backup_tabla.py:120-127 | on every path, no removable artifact remains, an artifact that cannot be removed stays as cleanup found it, and every other file is unchanged |
| PostgresBackup.RunIdempotent | postgres_backup_tabla.py:120-127 | a second run with the same outcomes leaves the directory as the first left it |
| PostgresBackup.PostgresBackupRestore.constructor | postgres_backup_tabla.py:6-19 | each connection field is the environment value, or `None` when it is missing; schemas and table are those given |
| PostgresBackup.AfterRedirect | postgres_backup_tabla.py:36-43 | a redirecting step adds its output file exactly when the shell created it (always on exit 0; on a failure or an escaping exception as the outcome says), and touches no other file |
| PostgresBackup.PostgresBackupRestore.BackupTable | postgres_backup_tabla.py:21-43 | issues the dump command; the backup file exists afterwards when the shell created it, including when an exception escapes after the redirect; only a non-`CalledProcessError` exception escapes |
| PostgresBackup.PostgresBackupRestore.ReplaceSchema | postgres_backup_tabla.py:45-59 | issues the `sed` command; the restore file exists afterwards when the shell created it, including when an exception escapes after the redirect; only a non-`CalledProcessError` exception escapes |
| PostgresBackup.PostgresBackupRestore.RestoreTable | postgres_backup_tabla.py:61-83 | issues the restore command; only a non-`CalledProcessError` exception escapes |
| PostgresBackup.PostgresBackupRestore.CleanupFiles | postgres_backup_tabla.py:85-101 | removes exactly the removable artifacts that are present, and reports the backup file then the restore file |
| PostgresBackup.RunJob | postgres_backup_tabla.py:120-127 | attempts the steps `Attempted` gives, issues their commands in order, always cleans up, leaves `FinalFiles`, and reports for the backup file and then the restore file what cleanup found for each when it started |

## Left out

- Database and pandas work is left out: `create_engine`, `read_csv` parsing, `to_sql`, DataFrame concatenation, and column renaming and reordering. A loaded file is represented only by the columns the script adds (`fechaoperacion`, `version`). Whether `read_csv` succeeds is a parameter, the set of readable files.
- The `totaldia` branch (datos_termonorte.py:111-140) is left out. It renames pandas columns and stamps `pd.Timestamp.now()`, which is a clock read. Printing is left out everywhere.
- `os.listdir` is a parameter (the listing, in the order returned). The environment and `load_dotenv` are a map from names to values.
- `str.isdigit`, `str.isalpha` and `str.upper` are modelled over ASCII. Python also counts non-ASCII digits and letters, such as `ñ` or `á`, which the model does not.
- Termonorte.LoadDataframes: takes the types in an unspecified order, not dictionary insertion order. Its result does not depend on the order.
- PostgresBackup.ValidarInput: receives a finite sequence of answers. When every answer is rejected it returns `None`, where the script would prompt forever.
- The constructor's default `table_name=None` is not modelled. The main block always passes a validated name. The defaults `public` and `public_test` for the schemas are kept.
- `pg_dump`, `sed`, `psql` and `docker` are not run. Their outcomes are parameters. A removal that raises is a parameter too, the set of paths that cannot be removed.
- `RestoreTable` does not model docker's `-v` behaviour for a missing source file. Docker then creates a directory at that path, which `cleanup_files` does not treat as a file.
- Commands are split into words on spaces, not parsed as shell text. Quotes or metacharacters inside the connection settings are not modelled.
- The `sed` rewrite is not claimed to remove every occurrence of `source.table`. The target schema text may itself contain it.
- A job that is never attempted for lack of valid input is not modelled, and neither is the `print` after cleanup.

## Findings

| source | as written | input that shows it | evidently intended | confidence | as-written member | corrected member |
|---|---|---|---|---|---|---|
| postgres_backup_tabla.py:51 | the `sed` pattern `source.table` leaves its `.` unescaped, so it matches any character | dump text `public_readings` with source schema `public`, target `test`, table `readings` becomes `test.readings` | replace only the literal qualified name `public.readings` | high (not executed) | PostgresBackup.SedRewriteWildcardExample | PostgresBackup.LiteralRewriteUnchanged |
