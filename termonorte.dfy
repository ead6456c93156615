/** The vendor-file logic of `datos_termonorte.py`: classifying a directory
    listing into file types, reading the operation date and the version out of
    each file name, loading the files of each type and deriving the date
    columns of `tdia_sis`. CSV contents and the database are not modelled: a
    loaded file is represented by the columns the script adds to it. */
module Termonorte {
  import opened Wrappers
  import opened Strings

  // ---------------------------------------------------------------------------
  // Classification of the directory listing
  // ---------------------------------------------------------------------------

  /** Only `.txa`, `.tx2` and `.txf` files are vendor data files. */
  predicate HasDataExtension(file: string)
  {
    EndsWith(file, ".txa") || EndsWith(file, ".tx2") || EndsWith(file, ".txf")
  }

  /** The file type: the name without its digits, cut at its first dot. */
  function GroupKey(file: string): (key: string)
    ensures forall i :: 0 <= i < |key| ==> !IsDigit(key[i]) && key[i] != '.'
    ensures |key| <= |StripDigits(file)| && key == StripDigits(file)[..|key|]
    ensures |key| < |StripDigits(file)| ==> StripDigits(file)[|key|] == '.'
  {
    Split(StripDigits(file), '.')[0]
  }

  /** One step of the classification loop: create the group on its first
      file, then append. */
  function AddToGroup(groups: map<string, seq<string>>, key: string, file: string): map<string, seq<string>>
  {
    var existing := if key in groups then groups[key] else [];
    groups[key := existing + [file]]
  }

  /** The `file_types` dictionary the loop has built after `files`. */
  function Classify(files: seq<string>): map<string, seq<string>>
  {
    if files == [] then map[]
    else
      var last := files[|files| - 1];
      var groups := Classify(files[..|files| - 1]);
      if HasDataExtension(last) then AddToGroup(groups, GroupKey(last), last) else groups
  }

  /** Reference definition of a group: the data files of the listing whose
      key is `key`, in listing order. */
  function Members(files: seq<string>, key: string): (r: seq<string>)
    ensures |r| <= |files|
    ensures forall f :: f in r <==> f in files && HasDataExtension(f) && GroupKey(f) == key
  {
    if files == [] then []
    else
      var first := files[0];
      assert forall f :: f in files <==> f == first || f in files[1..];
      (if HasDataExtension(first) && GroupKey(first) == key then [first] else []) + Members(files[1..], key)
  }

  lemma {:induction false} MembersSnoc(files: seq<string>, file: string, key: string)
    ensures Members(files + [file], key)
         == Members(files, key) + (if HasDataExtension(file) && GroupKey(file) == key then [file] else [])
  {
    if files == [] {
      assert files + [file] == [file];
    } else {
      assert (files + [file])[1..] == files[1..] + [file];
      MembersSnoc(files[1..], file, key);
    }
  }

  /** The dictionary built by the loop maps each key to exactly its group, and
      has a key only when the group is non-empty. */
  lemma {:induction false} ClassifyIsGrouping(files: seq<string>)
    ensures forall key :: key in Classify(files) <==> Members(files, key) != []
    ensures forall key :: key in Classify(files) ==> Classify(files)[key] == Members(files, key)
  {
    if files != [] {
      var init, last := files[..|files| - 1], files[|files| - 1];
      assert init + [last] == files;
      ClassifyIsGrouping(init);
      forall key ensures Members(files, key) == Members(init, key) + (if HasDataExtension(last) && GroupKey(last) == key then [last] else []) {
        MembersSnoc(init, last, key);
      }
    }
  }

  /** The classification loop of the script (`file_types`), over the
      listing `allFiles` in the order `os.listdir` returned it. */
  method ClassifyFiles(allFiles: seq<string>) returns (fileTypes: map<string, seq<string>>)
    ensures fileTypes == Classify(allFiles)
    ensures forall key :: key in fileTypes <==> Members(allFiles, key) != []
    ensures forall key :: key in fileTypes ==> fileTypes[key] == Members(allFiles, key)
  {
    fileTypes := map[];
    for i := 0 to |allFiles|
      invariant fileTypes == Classify(allFiles[..i])
    {
      var file := allFiles[i];
      assert allFiles[..i + 1][..i] == allFiles[..i];
      if HasDataExtension(file) {
        var baseName := GroupKey(file);
        if baseName !in fileTypes {
          fileTypes := fileTypes[baseName := []];
        }
        fileTypes := fileTypes[baseName := fileTypes[baseName] + [file]];
      }
    }
    assert allFiles[..|allFiles|] == allFiles;
    ClassifyIsGrouping(allFiles);
  }

  /** Each data file of the listing lands in the group of its own key and in
      no other group; other entries land nowhere; no key holds a digit or a
      dot; no group is empty. */
  lemma ClassificationPartitions(allFiles: seq<string>)
    ensures forall key, f :: key in Classify(allFiles) && f in Classify(allFiles)[key]
              ==> f in allFiles && HasDataExtension(f) && key == GroupKey(f)
    ensures forall f :: f in allFiles && HasDataExtension(f)
              ==> GroupKey(f) in Classify(allFiles) && f in Classify(allFiles)[GroupKey(f)]
    ensures forall key :: key in Classify(allFiles) ==> Classify(allFiles)[key] != []
    ensures forall key :: key in Classify(allFiles) ==> forall i :: 0 <= i < |key| ==> !IsDigit(key[i]) && key[i] != '.'
  {
    var groups := Classify(allFiles);
    ClassifyIsGrouping(allFiles);
    forall key, f | key in groups && f in groups[key]
      ensures f in allFiles && HasDataExtension(f) && key == GroupKey(f)
    {
      assert f in Members(allFiles, key);
    }
    forall f | f in allFiles && HasDataExtension(f)
      ensures GroupKey(f) in groups && f in groups[GroupKey(f)]
    {
      assert f in Members(allFiles, GroupKey(f));
    }
    forall key | key in groups
      ensures forall i :: 0 <= i < |key| ==> !IsDigit(key[i]) && key[i] != '.'
    {
      var f := Members(allFiles, key)[0];
      assert f in Members(allFiles, key);
    }
  }

  // ---------------------------------------------------------------------------
  // Date and version taken from the file name
  // ---------------------------------------------------------------------------

  /** The year the script gives every file. */
  const Year := 2024

  datatype Date = Date(year: int, month: int, day: int)

  predicate IsLeapYear(y: int)
  {
    y % 4 == 0 && (y % 100 != 0 || y % 400 == 0)
  }

  function DaysInMonth(y: int, m: int): (n: int)
    requires 1 <= m <= 12
    ensures 28 <= n <= 31
  {
    if m == 2 then (if IsLeapYear(y) then 29 else 28)
    else if m == 4 || m == 6 || m == 9 || m == 11 then 30
    else 31
  }

  predicate ValidDate(d: Date)
  {
    1 <= d.month <= 12 && 1 <= d.day <= DaysInMonth(d.year, d.month)
  }

  /** Why `datetime.strptime` raises `ValueError`: the text does not match the
      format, or the day does not exist in that month. */
  datatype DateError = FormatMismatch | DayOutOfRange

  /** What `%m` of `strptime` accepts: `1[0-2]|0[1-9]|[1-9]`, the whole field. */
  function MonthField(m: string): (r: Option<int>)
    ensures r.Some? ==> 1 <= r.value <= 12
  {
    if |m| == 2 && m[0] == '1' && '0' <= m[1] <= '2' then Some(10 + DigitValue(m[1]))
    else if |m| == 2 && m[0] == '0' && '1' <= m[1] <= '9' then Some(DigitValue(m[1]))
    else if |m| == 1 && '1' <= m[0] <= '9' then Some(DigitValue(m[0]))
    else None
  }

  /** What `%d` of `strptime` accepts: `3[01]|[12]\d|0[1-9]|[1-9]| [1-9]`. */
  function DayField(d: string): (r: Option<int>)
    ensures r.Some? ==> 1 <= r.value <= 31
  {
    if |d| == 2 && d[0] == '3' && '0' <= d[1] <= '1' then Some(30 + DigitValue(d[1]))
    else if |d| == 2 && '1' <= d[0] <= '2' && IsDigit(d[1]) then Some(10 * DigitValue(d[0]) + DigitValue(d[1]))
    else if |d| == 2 && d[0] == '0' && '1' <= d[1] <= '9' then Some(DigitValue(d[1]))
    else if |d| == 1 && '1' <= d[0] <= '9' then Some(DigitValue(d[0]))
    else if |d| == 2 && d[0] == ' ' && '1' <= d[1] <= '9' then Some(DigitValue(d[1]))
    else None
  }

  /** Two-digit fields: the regular expressions accept exactly 01-12 and 01-31. */
  lemma TwoDigitFields(a: char, b: char)
    requires IsDigit(a) && IsDigit(b)
    ensures MonthField([a, b]).Some? <==> 1 <= 10 * DigitValue(a) + DigitValue(b) <= 12
    ensures MonthField([a, b]).Some? ==> MonthField([a, b]).value == 10 * DigitValue(a) + DigitValue(b)
    ensures DayField([a, b]).Some? <==> 1 <= 10 * DigitValue(a) + DigitValue(b) <= 31
    ensures DayField([a, b]).Some? ==> DayField([a, b]).value == 10 * DigitValue(a) + DigitValue(b)
  {
  }

  /** `datetime.strptime(f"2024-{month}-{day}", "%Y-%m-%d")`. */
  function ParseDate(month: string, day: string): (r: Result<Date, DateError>)
    ensures r.Success? ==> r.value.year == Year && ValidDate(r.value)
  {
    match (MonthField(month), DayField(day))
    case (Some(m), Some(d)) =>
      if d <= DaysInMonth(Year, m) then Success(Date(Year, m, d)) else Failure(DayOutOfRange)
    case _ => Failure(FormatMismatch)
  }

  /** The digits of the part of the name before its first dot. */
  function NameDigits(file: string): (ds: string)
    ensures forall i :: 0 <= i < |ds| ==> IsDigit(ds[i])
  {
    Digits(Split(file, '.')[0])
  }

  /** The type key is the part of the name before its first dot, without
      its digits. */
  lemma KeyIsBaseWithoutDigits(file: string)
    ensures GroupKey(file) == StripDigits(Split(file, '.')[0])
  {
    var base := Split(file, '.')[0];
    var rest := file[|base|..];
    assert file == base + rest;
    StripDigitsConcat(base, rest);
    StripDigitsKeepsOut(base, '.');
    if rest == [] {
      SplitNoSeparator(StripDigits(base), '.');
    } else {
      KeyBeforeDot(base, rest);
    }
  }

  /** Stripping the digits of `base + rest`, where `rest` starts at a dot,
      cuts at the stripped `base`. */
  lemma KeyBeforeDot(base: string, rest: string)
    requires rest != [] && rest[0] == '.'
    requires '.' !in StripDigits(base)
    ensures Split(StripDigits(base) + StripDigits(rest), '.')[0] == StripDigits(base)
  {
    var key, tail := StripDigits(base), StripDigits(rest[1..]);
    assert StripDigits(rest) == ['.'] + tail;
    assert key + StripDigits(rest) == key + ['.'] + tail;
    SplitAround(key, '.', tail);
    SplitNoSeparator(key, '.');
  }

  /** The type key and the date digits together hold each character of the
      part of the name before its first dot exactly once. */
  lemma KeyAndDigitsPartitionBase(file: string)
    ensures multiset(GroupKey(file)) + multiset(NameDigits(file)) == multiset(Split(file, '.')[0])
  {
    KeyIsBaseWithoutDigits(file);
    DigitsPartition(Split(file, '.')[0]);
  }

  /** `extract_date_from_filename`: the last four digits before the first dot
      (all of them when there are fewer) read as month then day of 2024. */
  function ExtractDate(file: string): (r: Result<Date, DateError>)
    ensures r.Success? ==> r.value.year == Year && ValidDate(r.value)
  {
    var digits := NameDigits(file);
    var datePart := if |digits| >= 4 then digits[|digits| - 4..] else digits;
    var cut := if |datePart| < 2 then |datePart| else 2;
    ParseDate(datePart[..cut], datePart[cut..])
  }

  /** With four or more digits: month and day are the last four digits, and
      the file is accepted exactly when they form a date of 2024. */
  lemma ExtractDateLastFour(file: string)
    requires |NameDigits(file)| >= 4
    ensures var ds := NameDigits(file);
            var n := |ds|;
            var date := Date(Year, 10 * DigitValue(ds[n - 4]) + DigitValue(ds[n - 3]),
                                   10 * DigitValue(ds[n - 2]) + DigitValue(ds[n - 1]));
            (ExtractDate(file).Success? <==> ValidDate(date))
            && (ExtractDate(file).Success? ==> ExtractDate(file).value == date)
  {
    var ds := NameDigits(file);
    var n := |ds|;
    var part := ds[n - 4..];
    assert part[..2] == [ds[n - 4], ds[n - 3]];
    assert part[2..] == [ds[n - 2], ds[n - 1]];
    TwoDigitFields(ds[n - 4], ds[n - 3]);
    TwoDigitFields(ds[n - 2], ds[n - 1]);
  }

  /** With exactly three digits: two for the month and a one-digit day,
      which `%d` accepts unless it is 0. */
  lemma ExtractDateThree(file: string)
    requires |NameDigits(file)| == 3
    ensures var ds := NameDigits(file);
            var date := Date(Year, 10 * DigitValue(ds[0]) + DigitValue(ds[1]), DigitValue(ds[2]));
            (ExtractDate(file).Success? <==> ValidDate(date))
            && (ExtractDate(file).Success? ==> ExtractDate(file).value == date)
  {
    var ds := NameDigits(file);
    assert ds[..2] == [ds[0], ds[1]];
    assert ds[2..] == [ds[2]];
    TwoDigitFields(ds[0], ds[1]);
  }

  /** With fewer than three digits the day field is empty: always an error. */
  lemma ExtractDateTooFew(file: string)
    requires |NameDigits(file)| < 3
    ensures ExtractDate(file) == Failure(FormatMismatch)
  {
  }

  /** A name made of a digit-free type, digits, a dot and an extension:
      the digits before its dot are those digits. */
  lemma NameDigitsOf(prefix: string, digits: string, ext: string)
    requires forall i :: 0 <= i < |prefix| ==> !IsDigit(prefix[i]) && prefix[i] != '.'
    requires forall i :: 0 <= i < |digits| ==> IsDigit(digits[i])
    ensures NameDigits(prefix + digits + "." + ext) == digits
  {
    var base := prefix + digits;
    assert '.' !in base by {
      assert forall i :: 0 <= i < |base| ==> base[i] != '.';
    }
    assert prefix + digits + "." + ext == base + ['.'] + ext;
    SplitAround(base, '.', ext);
    SplitNoSeparator(base, '.');
    DigitsConcat(prefix, digits);
    NoDigits(prefix);
    AllDigits(digits);
  }

  /** Such a name's type is the part before its digits. */
  lemma GroupKeyOf(prefix: string, digits: string, ext: string)
    requires forall i :: 0 <= i < |prefix| ==> !IsDigit(prefix[i]) && prefix[i] != '.'
    requires forall i :: 0 <= i < |digits| ==> IsDigit(digits[i])
    requires forall i :: 0 <= i < |ext| ==> !IsDigit(ext[i])
    ensures GroupKey(prefix + digits + "." + ext) == prefix
  {
    var name := prefix + digits + "." + ext;
    assert name == prefix + (digits + ("." + ext));
    StripDigitsConcat(prefix, digits + ("." + ext));
    StripDigitsConcat(digits, "." + ext);
    StripDigitsConcat(".", ext);
    NoDigits(prefix);
    AllDigits(digits);
    NoDigits(".");
    NoDigits(ext);
    assert StripDigits(name) == prefix + ['.'] + ext;
    SplitAround(prefix, '.', ext);
    assert '.' !in prefix by {
      assert forall i :: 0 <= i < |prefix| ==> prefix[i] != '.';
    }
    SplitNoSeparator(prefix, '.');
  }

  /** A name whose digits before its dot end in `mmdd` is dated `mmdd` of
      2024 when that is a date. */
  lemma DatedName(prefix: string, digits: string, ext: string, month: nat, day: nat)
    requires forall i :: 0 <= i < |prefix| ==> !IsDigit(prefix[i]) && prefix[i] != '.'
    requires forall i :: 0 <= i < |digits| ==> IsDigit(digits[i])
    requires forall i :: 0 <= i < |ext| ==> !IsDigit(ext[i])
    requires |digits| >= 4
    requires month == 10 * DigitValue(digits[|digits| - 4]) + DigitValue(digits[|digits| - 3])
    requires day == 10 * DigitValue(digits[|digits| - 2]) + DigitValue(digits[|digits| - 1])
    ensures GroupKey(prefix + digits + "." + ext) == prefix
    ensures ValidDate(Date(Year, month, day)) ==> ExtractDate(prefix + digits + "." + ext) == Success(Date(Year, month, day))
    ensures ExtractDate(prefix + digits + "." + ext).Success? <==> ValidDate(Date(Year, month, day))
  {
    GroupKeyOf(prefix, digits, ext);
    NameDigitsOf(prefix, digits, ext);
    ExtractDateLastFour(prefix + digits + "." + ext);
  }

  /** `COMB140101.txa` is of type `COMB` and dated 2024-01-01. */
  lemma CombExample()
    ensures GroupKey("COMB140101.txa") == "COMB"
    ensures ExtractDate("COMB140101.txa") == Success(Date(2024, 1, 1))
  {
    var prefix, digits, ext := "COMB", "140101", "txa";
    DatedName(prefix, digits, ext, 1, 1);
    assert prefix + digits + "." + ext == "COMB140101.txa";
  }

  /** 2024 is a leap year: `0229` is accepted. */
  lemma LeapDayExample()
    ensures ExtractDate("tdia_sis0229.txa") == Success(Date(2024, 2, 29))
  {
    var prefix, ext := "tdia_sis", "txa";
    assert IsLeapYear(Year);
    assert ValidDate(Date(Year, 2, 29));
    DatedName(prefix, "0229", ext, 2, 29);
    assert prefix + "0229" + "." + ext == "tdia_sis0229.txa";
  }

  /** `0230` is not a date of 2024. */
  lemma DayOutOfMonthExample()
    ensures ExtractDate("tdia_sis0230.txa").Failure?
  {
    var prefix, ext := "tdia_sis", "txa";
    DatedName(prefix, "0230", ext, 2, 30);
    assert prefix + "0230" + "." + ext == "tdia_sis0230.txa";
  }

  /** Month `13` is refused. */
  lemma MonthThirteenExample()
    ensures ExtractDate("tdia_sis1301.txa").Failure?
  {
    var prefix, ext := "tdia_sis", "txa";
    DatedName(prefix, "1301", ext, 13, 1);
    assert prefix + "1301" + "." + ext == "tdia_sis1301.txa";
  }

  /** Day `00` is refused. */
  lemma DayZeroExample()
    ensures ExtractDate("tdia_sis0100.txa").Failure?
  {
    var prefix, ext := "tdia_sis", "txa";
    DatedName(prefix, "0100", ext, 1, 0);
    assert prefix + "0100" + "." + ext == "tdia_sis0100.txa";
  }

  /** `file.split('.')[-1]`: the text after the last dot. */
  function Version(file: string): (v: string)
    ensures '.' !in v
  {
    var pieces := Split(file, '.');
    pieces[|pieces| - 1]
  }

  /** The version of a name is what follows its last dot. */
  lemma VersionAfterLastDot(stem: string, ext: string)
    requires '.' !in ext
    ensures Version(stem + ['.'] + ext) == ext
  {
    SplitAround(stem, '.', ext);
    SplitNoSeparator(ext, '.');
  }

  /** The version of a data file is its extension; upper-cased it is one of
      `TXA`, `TX2`, `TXF`. */
  lemma DataFileVersion(file: string)
    requires HasDataExtension(file)
    ensures Version(file) == file[|file| - 3..]
    ensures Version(file) == "txa" || Version(file) == "tx2" || Version(file) == "txf"
    ensures Upper(Version(file)) == "TXA" || Upper(Version(file)) == "TX2" || Upper(Version(file)) == "TXF"
  {
    var n := |file|;
    var stem, ext := file[..n - 4], file[n - 3..];
    assert file[n - 4..] == ['.'] + ext;
    assert file == stem + ['.'] + ext;
    assert ext == "txa" || ext == "tx2" || ext == "txf";
    VersionAfterLastDot(stem, ext);
    UpperExtensions();
  }

  lemma UpperExtensions()
    ensures Upper("txa") == "TXA" && Upper("tx2") == "TX2" && Upper("txf") == "TXF"
  {
  }

  // ---------------------------------------------------------------------------
  // Loading the files of each type
  // ---------------------------------------------------------------------------

  /** A file that was read: the columns the script adds to its rows. */
  datatype Frame = Frame(file: string, fechaoperacion: Date, version: string)

  /** One iteration of the inner loop: `read_csv` (successful exactly for the
      files in `readable`) and then the date; an exception of either skips
      the file. */
  function LoadFile(file: string, readable: set<string>): (r: Option<Frame>)
    ensures r.Some? <==> file in readable && ExtractDate(file).Success?
  {
    if file !in readable then None
    else match ExtractDate(file)
      case Success(date) => Some(Frame(file, date, Version(file)))
      case Failure(_) => None
  }

  /** `df_list` after the inner loop: the loaded files in order. */
  function TypeFrames(files: seq<string>, readable: set<string>): (frames: seq<Frame>)
    ensures |frames| <= |files|
    ensures forall fr :: fr in frames ==> fr.file in files && LoadFile(fr.file, readable) == Some(fr)
    ensures forall f :: f in files && LoadFile(f, readable).Some? ==> LoadFile(f, readable).value in frames
  {
    if files == [] then []
    else
      var init, last := files[..|files| - 1], files[|files| - 1];
      assert forall f :: f in files <==> f in init || f == last;
      var loaded := LoadFile(last, readable);
      TypeFrames(init, readable) + (if loaded.Some? then [loaded.value] else [])
  }

  /** The `dataframes` dictionary: a type is present only if one of its files
      loaded. */
  function Dataframes(fileTypes: map<string, seq<string>>, readable: set<string>): map<string, seq<Frame>>
  {
    map key | key in fileTypes && TypeFrames(fileTypes[key], readable) != [] :: TypeFrames(fileTypes[key], readable)
  }

  /** The per-type loop of the script. A file that fails is skipped and the
      loop goes on with the others. */
  method LoadDataframes(fileTypes: map<string, seq<string>>, readable: set<string>)
    returns (dataframes: map<string, seq<Frame>>)
    ensures dataframes == Dataframes(fileTypes, readable)
  {
    dataframes := map[];
    var pending := fileTypes.Keys;
    while pending != {}
      invariant pending <= fileTypes.Keys
      invariant forall key :: key in dataframes <==>
                  key in fileTypes && key !in pending && TypeFrames(fileTypes[key], readable) != []
      invariant forall key :: key in dataframes ==> dataframes[key] == TypeFrames(fileTypes[key], readable)
      decreases pending
    {
      var fileType :| fileType in pending;
      var files := fileTypes[fileType];
      var dfList := [];
      for j := 0 to |files|
        invariant dfList == TypeFrames(files[..j], readable)
      {
        assert files[..j + 1][..j] == files[..j];
        var loaded := LoadFile(files[j], readable);
        if loaded.Some? {
          dfList := dfList + [loaded.value];
        }
      }
      assert files[..|files|] == files;
      if dfList != [] {
        dataframes := dataframes[fileType := dfList];
      }
      pending := pending - {fileType};
    }
  }

  /** A type has a data frame exactly when one of its files is readable and
      has a valid date. */
  lemma DataframesPresence(fileTypes: map<string, seq<string>>, readable: set<string>, key: string)
    ensures key in Dataframes(fileTypes, readable) <==>
            key in fileTypes && exists f :: f in fileTypes[key] && f in readable && ExtractDate(f).Success?
  {
    if key in fileTypes {
      var frames := TypeFrames(fileTypes[key], readable);
      if frames != [] {
        assert frames[0] in frames;
      }
      forall f | f in fileTypes[key] && f in readable && ExtractDate(f).Success?
        ensures frames != []
      {
        assert LoadFile(f, readable).value in frames;
      }
    }
  }

  // ---------------------------------------------------------------------------
  // The `tdia_sis` columns
  // ---------------------------------------------------------------------------

  datatype SisRow = SisRow(tdsisano: int, tdsismes: int, tdsisdia: int, tdsisver: string, tdsisfecha: Date)

  /** Year, month and day from `fechaoperacion`, the version upper-cased. */
  function SisRowOf(frame: Frame): SisRow
  {
    SisRow(frame.fechaoperacion.year, frame.fechaoperacion.month, frame.fechaoperacion.day,
           Upper(frame.version), frame.fechaoperacion)
  }

  /** The `tdia_sis` transformation, when that type was loaded. */
  function TdiaSis(dataframes: map<string, seq<Frame>>): (r: Option<seq<SisRow>>)
    ensures r.Some? <==> "tdia_sis" in dataframes
    ensures r.Some? ==> |r.value| == |dataframes["tdia_sis"]|
  {
    if "tdia_sis" in dataframes then
      var frames := dataframes["tdia_sis"];
      Some(seq(|frames|, i requires 0 <= i < |frames| => SisRowOf(frames[i])))
    else None
  }

  /** From the listing to the `tdia_sis` rows: every row comes from a
      `tdia_sis` data file of the listing, its year is 2024, its year, month
      and day are those of a real date, and its version is `TXA`, `TX2` or
      `TXF`. */
  lemma TdiaSisRows(allFiles: seq<string>, readable: set<string>)
    ensures var rows := TdiaSis(Dataframes(Classify(allFiles), readable));
            rows.Some? ==>
              forall i :: 0 <= i < |rows.value| ==>
                var row := rows.value[i];
                row.tdsisano == Year
                && ValidDate(Date(row.tdsisano, row.tdsismes, row.tdsisdia))
                && row.tdsisfecha == Date(row.tdsisano, row.tdsismes, row.tdsisdia)
                && (row.tdsisver == "TXA" || row.tdsisver == "TX2" || row.tdsisver == "TXF")
  {
    var groups := Classify(allFiles);
    var dataframes := Dataframes(groups, readable);
    ClassificationPartitions(allFiles);
    if "tdia_sis" in dataframes {
      var frames := dataframes["tdia_sis"];
      forall i | 0 <= i < |frames|
        ensures var row := SisRowOf(frames[i]);
                row.tdsisano == Year
                && ValidDate(Date(row.tdsisano, row.tdsismes, row.tdsisdia))
                && row.tdsisfecha == Date(row.tdsisano, row.tdsismes, row.tdsisdia)
                && (row.tdsisver == "TXA" || row.tdsisver == "TX2" || row.tdsisver == "TXF")
      {
        var fr := frames[i];
        assert fr in TypeFrames(groups["tdia_sis"], readable);
        assert fr.file in groups["tdia_sis"];
        DataFileVersion(fr.file);
      }
    }
  }
}
