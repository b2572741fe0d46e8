/**
 * File helpers: reading a JSON file that may be absent, and copying a file
 * to a timestamped backup. The filesystem is a map from file path to
 * contents plus the set of existing directories; the clock and the JSON
 * decoder are parameters.
 */
module Helpers {
  import opened Wrappers
  import opened Json
  import opened Paths

  datatype Fs = Fs(files: map<string, string>, dirs: set<string>)

  /** `os.path.exists`. */
  predicate Exists(fs: Fs, path: string) {
    path in fs.files || path in fs.dirs
  }

  /** `load_json_file`: an absent file reads as `{}`; otherwise the decoded contents. */
  function LoadJsonFile(fs: Fs, path: string, decode: string -> Option<Value>): (r: Result<Value, string>)
    ensures !Exists(fs, path) ==> r == Success(EmptyObject)
    ensures path in fs.files ==> (r.Success? <==> decode(fs.files[path]).Some?)
    ensures path in fs.files && r.Success? ==> r.value == decode(fs.files[path]).value
  {
    if !Exists(fs, path) then Success(EmptyObject)
    else if path !in fs.files then Failure("IsADirectoryError")
    else match decode(fs.files[path])
      case None => Failure("JSONDecodeError")
      case Some(v) => Success(v)
  }

  // ---- timestamps ----

  /** A local wall-clock reading with a four-digit year. */
  datatype DateTime = DateTime(year: nat, month: nat, day: nat, hour: nat, minute: nat, second: nat) {
    predicate Valid() {
      1000 <= year <= 9999 && 1 <= month <= 12 && 1 <= day <= 31 && hour < 24 && minute < 60 && second < 60
    }
  }

  function Pow10(w: nat): (r: nat)
    ensures r > 0
  {
    if w == 0 then 1 else 10 * Pow10(w - 1)
  }

  predicate IsDigit(c: char) {
    '0' <= c <= '9'
  }

  predicate AllDigits(s: string) {
    forall i :: 0 <= i < |s| ==> IsDigit(s[i])
  }

  /** The last `w` decimal digits of `n`, zero-padded. */
  function Digits(n: nat, w: nat): (r: string)
    ensures |r| == w && AllDigits(r)
  {
    if w == 0 then "" else Digits(n / 10, w - 1) + [(48 + n % 10) as char]
  }

  /** The number a digit string denotes. */
  function Decimal(s: string): nat
    requires AllDigits(s)
  {
    if s == [] then 0 else Decimal(s[..|s| - 1]) * 10 + (s[|s| - 1] as int - 48)
  }

  lemma {:induction false} DecimalDigits(n: nat, w: nat)
    requires n < Pow10(w)
    ensures Decimal(Digits(n, w)) == n
  {
    if w > 0 {
      var s := Digits(n, w);
      assert s[..|s| - 1] == Digits(n / 10, w - 1);
      DecimalDigits(n / 10, w - 1);
    }
  }

  /** `%Y%m%d`. */
  function DatePart(t: DateTime): (r: string)
    ensures |r| == 8 && AllDigits(r)
  {
    Digits(t.year, 4) + Digits(t.month, 2) + Digits(t.day, 2)
  }

  /** `%H%M%S`. */
  function TimePart(t: DateTime): (r: string)
    ensures |r| == 6 && AllDigits(r)
  {
    Digits(t.hour, 2) + Digits(t.minute, 2) + Digits(t.second, 2)
  }

  /** `strftime("%Y%m%d_%H%M%S")`. */
  function Timestamp(t: DateTime): (r: string)
    requires t.Valid()
    ensures |r| == 15 && r[8] == '_'
    ensures forall i :: 0 <= i < 15 && i != 8 ==> IsDigit(r[i])
  {
    DatePart(t) + "_" + TimePart(t)
  }

  /** Reads a `%Y%m%d_%H%M%S` stamp back. */
  function ParseTimestamp(s: string): (r: Option<DateTime>)
    ensures r.Some? ==> |s| == 15
  {
    if |s| == 15 && s[8] == '_' && AllDigits(s[..8]) && AllDigits(s[9..]) then
      var date, time := s[..8], s[9..];
      Some(DateTime(Decimal(date[..4]), Decimal(date[4..6]), Decimal(date[6..]),
                    Decimal(time[..2]), Decimal(time[2..4]), Decimal(time[4..])))
    else None
  }

  /** The stamp determines the time it was taken from. */
  lemma ParseTimestampRoundTrip(t: DateTime)
    requires t.Valid()
    ensures ParseTimestamp(Timestamp(t)) == Some(t)
  {
    var s := Timestamp(t);
    var date, time := s[..8], s[9..];
    assert date == DatePart(t) && time == TimePart(t);
    assert date[..4] == Digits(t.year, 4);
    assert date[4..6] == Digits(t.month, 2);
    assert date[6..] == Digits(t.day, 2);
    assert time[..2] == Digits(t.hour, 2);
    assert time[2..4] == Digits(t.minute, 2);
    assert time[4..] == Digits(t.second, 2);
    DecimalDigits(t.year, 4);
    DecimalDigits(t.month, 2);
    DecimalDigits(t.day, 2);
    DecimalDigits(t.hour, 2);
    DecimalDigits(t.minute, 2);
    DecimalDigits(t.second, 2);
  }

  // ---- backups ----

  const BackupSuffix := ".json"

  /** `f"{os.path.basename(file_path)}_{timestamp}.json"`. */
  function BackupName(filePath: string, now: DateTime): (r: string)
    requires now.Valid()
    ensures '/' !in r && r != []
  {
    BaseName(filePath) + "_" + Timestamp(now) + BackupSuffix
  }

  /** What `create_backup` returns, or the error it raised, with the filesystem it leaves. */
  datatype BackupOutcome = BackupOutcome(path: Result<string, string>, fs: Fs)

  /**
   * `create_backup`: a missing source returns "" and touches nothing.
   * Otherwise the backup directory is created, then the source's contents are
   * written to the timestamped path inside it, which is returned.
   * `os.makedirs("")` raises, and so does opening a directory as the source.
   */
  function CreateBackup(fs: Fs, filePath: string, backupDir: string, now: DateTime): (r: BackupOutcome)
    requires now.Valid()
    ensures !Exists(fs, filePath) ==> r == BackupOutcome(Success(""), fs)
    ensures filePath in fs.files && backupDir != [] ==>
              var p := JoinPath(backupDir, BackupName(filePath, now));
              && r.path == Success(p)
              && r.fs.files == fs.files[p := fs.files[filePath]]
              && r.fs.dirs == fs.dirs + Ancestors(backupDir)
    ensures Exists(fs, filePath) && backupDir == [] ==> r.path.Failure? && r.fs == fs
    ensures filePath in fs.dirs && filePath !in fs.files && backupDir != [] ==>
              r.path.Failure? && r.fs == fs.(dirs := fs.dirs + Ancestors(backupDir))
  {
    if !Exists(fs, filePath) then BackupOutcome(Success(""), fs)
    else if backupDir == [] then BackupOutcome(Failure("FileNotFoundError"), fs)
    else
      var made := fs.(dirs := fs.dirs + Ancestors(backupDir));
      if filePath !in fs.files then BackupOutcome(Failure("IsADirectoryError"), made)
      else
        var p := JoinPath(backupDir, BackupName(filePath, now));
        BackupOutcome(Success(p), made.(files := fs.files[p := fs.files[filePath]]))
  }

  /**
   * A backup holds the source's contents, sits directly inside the backup
   * directory, leaves every other file as it was, and its name records the
   * source's base name and the time it was taken.
   */
  lemma BackupCopiesContent(fs: Fs, filePath: string, backupDir: string, now: DateTime)
    requires now.Valid() && filePath in fs.files && backupDir != []
    ensures var r := CreateBackup(fs, filePath, backupDir, now);
            && r.path.Success?
            && r.fs.files[r.path.value] == fs.files[filePath]
            && (forall q :: q in fs.files && q != r.path.value ==> q in r.fs.files && r.fs.files[q] == fs.files[q])
            && backupDir in r.fs.dirs
            && BaseName(r.path.value) == BackupName(filePath, now)
  {
    BaseNameOfJoin(backupDir, BackupName(filePath, now));
  }

  /** The time of a backup can be read back from its file name. */
  lemma BackupNameRecordsTime(filePath: string, now: DateTime)
    requires now.Valid()
    ensures var name := BackupName(filePath, now);
            var stem := |BaseName(filePath)| + 1;
            && stem + 15 + |BackupSuffix| == |name|
            && name[..stem] == BaseName(filePath) + "_"
            && ParseTimestamp(name[stem..stem + 15]) == Some(now)
            && name[stem + 15..] == BackupSuffix
  {
    var name := BackupName(filePath, now);
    var stem := |BaseName(filePath)| + 1;
    assert name[stem..stem + 15] == Timestamp(now);
    ParseTimestampRoundTrip(now);
  }

  /** Reading the backup back gives what reading the source gave. */
  lemma BackupReadsLikeSource(fs: Fs, filePath: string, backupDir: string, now: DateTime, decode: string -> Option<Value>)
    requires now.Valid() && filePath in fs.files && backupDir != []
    ensures var r := CreateBackup(fs, filePath, backupDir, now);
            LoadJsonFile(r.fs, r.path.value, decode) == LoadJsonFile(fs, filePath, decode)
  {
  }
}
