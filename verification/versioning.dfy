/** The version strings the `:global_version` task stamps into the
    assemblies: a fixed assembly/informational version built from the base
    and the revision, and a file version that carries either a date stamp
    or the CI build number. */
module Versioning {

  import opened Options
  import opened Decimal

  const BuildNumberBase := "0.4.2"
  const Revision: nat := 0

  /** `asm_version`: the base, a dot, and the revision number. */
  const AsmVersion := BuildNumberBase + "." + ToDecimal(Revision)

  /** Length of the `base.` prefix every version string starts with. */
  const PrefixLength := |BuildNumberBase| + 1

  /** The fields of the generated assembly info that carry a version. */
  datatype VersionInfo = VersionInfo(
    version: string,              // AssemblyVersion
    fileVersion: string,          // AssemblyFileVersion
    informationalVersion: string  // AssemblyInformationalVersion
  )

  predicate ValidOrdinalDay(yday: int) {
    1 <= yday <= 366
  }

  /** `strftime('%y%j')`: the year within its century as two digits, then
      the day of the year as three digits, both zero-padded. */
  function DateStamp(year: int, yday: int): (r: string)
    requires ValidOrdinalDay(yday)
    ensures |r| == 5 && AllDigits(r)
  {
    Padded(year % 100, 2) + Padded(yday, 3)
  }

  /** The stamp reads back into the two fields it encodes. */
  lemma DateStampFields(year: int, yday: int)
    requires ValidOrdinalDay(yday)
    ensures Value(DateStamp(year, yday)[..2]) == year % 100
    ensures Value(DateStamp(year, yday)[2..]) == yday
  {
    var yy, ddd := Padded(year % 100, 2), Padded(yday, 3);
    ValueOfPadded(year % 100, 2);
    ValueOfPadded(yday, 3);
    assert DateStamp(year, yday)[..2] == yy;
    assert DateStamp(year, yday)[2..] == ddd;
  }

  /** The file version: the base with the date stamp, unless the
      `BUILD_NUMBER` environment value is set (to anything, even the empty
      string), in which case that value replaces the date stamp. */
  function FileVersion(year: int, yday: int, buildNumberEnv: Option<string>): (r: string)
    requires ValidOrdinalDay(yday)
    ensures |r| >= PrefixLength && r[..PrefixLength] == BuildNumberBase + "."
    ensures buildNumberEnv.Some? ==> r[PrefixLength..] == buildNumberEnv.value
    ensures buildNumberEnv.None? ==> |r| == PrefixLength + 5 && AllDigits(r[PrefixLength..])
  {
    var buildNumber := BuildNumberBase + "." + DateStamp(year, yday);
    if buildNumberEnv.Some? then BuildNumberBase + "." + buildNumberEnv.value
    else
      assert buildNumber[PrefixLength..] == DateStamp(year, yday);
      buildNumber
  }

  /** Without an override, the digits after the base read back as the year
      within its century and the ordinal day. */
  lemma FileVersionDated(year: int, yday: int)
    requires ValidOrdinalDay(yday)
    ensures var r := FileVersion(year, yday, None);
            && Value(r[PrefixLength..PrefixLength + 2]) == year % 100
            && Value(r[PrefixLength + 2..]) == yday
  {
    var r := FileVersion(year, yday, None);
    var stamp := DateStamp(year, yday);
    DateStampFields(year, yday);
    assert r[PrefixLength..PrefixLength + 2] == stamp[..2];
    assert r[PrefixLength + 2..] == stamp[2..];
  }

  /** The `:global_version` task's version fields for a run on the given
      day with the given `BUILD_NUMBER` environment value. */
  function GlobalVersion(year: int, yday: int, buildNumberEnv: Option<string>): (v: VersionInfo)
    requires ValidOrdinalDay(yday)
    ensures v.version == v.informationalVersion == "0.4.2.0"
    ensures buildNumberEnv.Some? ==> v.fileVersion == BuildNumberBase + "." + buildNumberEnv.value
    ensures buildNumberEnv.None? ==> v.fileVersion == BuildNumberBase + "." + DateStamp(year, yday)
    ensures |v.fileVersion| >= PrefixLength && v.fileVersion[..PrefixLength] == v.version[..PrefixLength]
  {
    AsmVersionIs();
    VersionInfo(AsmVersion, FileVersion(year, yday, buildNumberEnv), AsmVersion)
  }

  lemma AsmVersionIs()
    ensures AsmVersion == "0.4.2.0"
  {
    assert ToDecimal(0) == ['0'];
  }

  /** The date stamp determines the year within its century and the day. */
  lemma DateStampInjective(y1: int, d1: int, y2: int, d2: int)
    requires ValidOrdinalDay(d1) && ValidOrdinalDay(d2)
    requires DateStamp(y1, d1) == DateStamp(y2, d2)
    ensures y1 % 100 == y2 % 100 && d1 == d2
  {
    DateStampFields(y1, d1);
    DateStampFields(y2, d2);
  }

  /** Every two digits followed by three digits naming a valid day form
      the date stamp of a year whose last two digits they are: stamps and
      their fields round-trip. */
  lemma DateStampOnto(yy: string, ddd: string, year: int)
    requires |yy| == 2 && AllDigits(yy) && year % 100 == Value(yy)
    requires |ddd| == 3 && AllDigits(ddd) && ValidOrdinalDay(Value(ddd))
    ensures DateStamp(year, Value(ddd)) == yy + ddd
  {
    PaddedOfValue(yy);
    PaddedOfValue(ddd);
  }

  lemma PaddedYear24()
    ensures Padded(24, 2) == "24"
  {
    assert Padded(2, 1) == "2";
  }

  lemma PaddedDay123()
    ensures Padded(123, 3) == "123"
  {
    assert Padded(1, 1) == "1";
    assert Padded(12, 2) == "12";
  }

  /** Day 123 of 2024 is stamped `24123`. */
  lemma DateStampOnDate()
    ensures DateStamp(2024, 123) == "24123"
  {
    PaddedYear24();
    PaddedDay123();
    assert 2024 % 100 == 24;
  }

  /** Base `0.4.2`, no override, day 123 of 2024 gives `0.4.2.24123`. */
  lemma FileVersionOnDate()
    ensures FileVersion(2024, 123, None) == "0.4.2.24123"
  {
    DateStampOnDate();
    assert BuildNumberBase + "." + "24123" == "0.4.2.24123";
  }

  /** With an override, the file version is the base and the override,
      whatever the date. */
  lemma OverrideReplacesDate(y1: int, d1: int, y2: int, d2: int, buildNumber: string)
    requires ValidOrdinalDay(d1) && ValidOrdinalDay(d2)
    ensures FileVersion(y1, d1, Some(buildNumber)) == FileVersion(y2, d2, Some(buildNumber))
    ensures FileVersion(y1, d1, Some(buildNumber)) == "0.4.2." + buildNumber
  {
    var r := FileVersion(y1, d1, Some(buildNumber));
    assert r == r[..PrefixLength] + r[PrefixLength..];
  }

  /** Base `0.4.2` and `BUILD_NUMBER` `456` give `0.4.2.456`; an empty
      override leaves nothing after the dot. */
  lemma OverrideExamples(year: int, yday: int)
    requires ValidOrdinalDay(yday)
    ensures FileVersion(year, yday, Some("456")) == "0.4.2.456"
    ensures FileVersion(year, yday, Some("")) == "0.4.2."
  {
    OverrideReplacesDate(year, yday, year, yday, "456");
    OverrideReplacesDate(year, yday, year, yday, "");
  }

  /** Neither the date nor the override moves the assembly and
      informational versions; without an override the file version always
      differs from them. */
  lemma AssemblyVersionFixed(y1: int, d1: int, e1: Option<string>, y2: int, d2: int, e2: Option<string>)
    requires ValidOrdinalDay(d1) && ValidOrdinalDay(d2)
    ensures GlobalVersion(y1, d1, e1).version == GlobalVersion(y2, d2, e2).version
    ensures GlobalVersion(y1, d1, e1).informationalVersion == GlobalVersion(y2, d2, e2).informationalVersion
    ensures e1.None? ==> GlobalVersion(y1, d1, e1).fileVersion != GlobalVersion(y1, d1, e1).version
  {
    var v := GlobalVersion(y1, d1, e1);
    if e1.None? {
      assert |v.fileVersion| == 11 && |v.version| == 7;
    }
  }
}
