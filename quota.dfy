/**
 * The Lustre `lfs` commands that manage-project-storage issues, the kB/GB
 * conversions around them, and the reading of the hard block limit out of
 * the text that `lfs quota -p <gid> <fs>` prints.
 */
module Quota {
  import opened Wrappers
  import opened Strings

  /** Parent directory of every project directory. */
  const PROJECT_BASE: string := "/net/pr2/projects/plgrid/"
  /** Mount point of the Lustre file system holding the project directories. */
  const PROJECT_FS: string := "/net/pr2/"
  const LFS_PATH: string := "/usr/bin/lfs"
  /** Quotas are kept in GB by the tool and in kB by Lustre. */
  const KB_PER_GB: nat := 1024 * 1024

  // ---------------------------------------------------------------------------
  // Units
  // ---------------------------------------------------------------------------

  /** `quota * 1024 * 1024`: the kB figure handed to `lfs setquota -B`. */
  function GbToKb(gb: int): int {
    gb * 1024 * 1024
  }

  /**
   * `int(kb / 1024 / 1024)`: the kB figure read back as GB, truncated toward
   * zero (Python's `int()` of a float).
   */
  function KbToGb(kb: int): (gb: int)
    ensures kb >= 0 ==> 0 <= gb && gb * KB_PER_GB <= kb < (gb + 1) * KB_PER_GB
    ensures kb < 0 ==> gb <= 0 && (gb - 1) * KB_PER_GB < kb <= gb * KB_PER_GB
  {
    if kb >= 0 then kb / KB_PER_GB else -((-kb) / KB_PER_GB)
  }

  /** A whole number of GB survives the trip to kB and back. */
  lemma KbToGbOfGbToKb(gb: int)
    ensures KbToGb(GbToKb(gb)) == gb
  {
    var kb := GbToKb(gb);
    assert kb == gb * KB_PER_GB;
    if gb < 0 {
      assert -kb == (-gb) * KB_PER_GB;
    }
  }

  // ---------------------------------------------------------------------------
  // Command lines
  // ---------------------------------------------------------------------------

  /** The command `check_quota` runs: query the project quota of `gid`. */
  function QueryCommand(gid: nat): (argv: seq<string>)
    ensures |argv| == 5 && argv[0] == LFS_PATH && argv[1] == "quota" && argv[2] == "-p"
    ensures ParseInt(argv[3]) == Some(gid as int) && argv[4] == PROJECT_FS
  {
    IntToStrRoundTrip(gid);
    [LFS_PATH, "quota", "-p", IntToStr(gid), PROJECT_FS]
  }

  /** The command `set_quota` runs: set the hard block limit of `gid` to `gb` GB. */
  function SetQuotaCommand(gid: nat, gb: int): (argv: seq<string>)
    ensures |argv| == 7 && argv[0] == LFS_PATH && argv[1] == "setquota" && argv[2] == "-p"
    ensures ParseInt(argv[3]) == Some(gid as int) && argv[4] == "-B"
    ensures ParseInt(argv[5]) == Some(gb * KB_PER_GB) && KbToGb(ParseInt(argv[5]).value) == gb
    ensures argv[6] == PROJECT_FS
  {
    IntToStrRoundTrip(gid);
    IntToStrRoundTrip(GbToKb(gb));
    KbToGbOfGbToKb(gb);
    [LFS_PATH, "setquota", "-p", IntToStr(gid), "-B", IntToStr(GbToKb(gb)), PROJECT_FS]
  }

  /** The command `set_project` runs: tag the tree at `path` with project id `gid`, recursively. */
  function SetProjectCommand(path: string, gid: nat): (argv: seq<string>)
    ensures |argv| == 7 && argv[0] == LFS_PATH && argv[1] == "project" && argv[2] == "-p"
    ensures ParseInt(argv[3]) == Some(gid as int) && argv[4] == "-s" && argv[5] == "-r"
    ensures argv[6] == path
  {
    IntToStrRoundTrip(gid);
    [LFS_PATH, "project", "-p", IntToStr(gid), "-s", "-r", path]
  }

  // ---------------------------------------------------------------------------
  // Reading the quota back
  // ---------------------------------------------------------------------------

  /**
   * What `check_quota` makes of a line that mentions the file system: the
   * fourth whitespace-separated field, parsed as kB and converted to GB.
   */
  function LineQuota(line: string): Result<Option<int>, PyError> {
    var parts := Fields(line);
    if |parts| < 4 then Err(IndexError)
    else
      var kb := ParseInt(parts[3]);
      if kb.None? then Err(ValueError(parts[3])) else Ok(Some(KbToGb(kb.value)))
  }

  /** The quota given by the first line mentioning the file system; `None` if no line does. */
  function QuotaOfLines(lines: seq<string>): Result<Option<int>, PyError> {
    if lines == [] then Ok(None)
    else if Contains(lines[0], PROJECT_FS) then LineQuota(lines[0])
    else QuotaOfLines(lines[1..])
  }

  /** `check_quota` applied to the standard output of the query command. */
  function QuotaOfListing(stdout: string): Result<Option<int>, PyError> {
    QuotaOfLines(SplitOn(stdout, '\n'))
  }

  /** Only the first line that mentions the file system decides; without one the result is `None`. */
  lemma {:induction false} QuotaOfLinesFirstMatch(lines: seq<string>)
    ensures (forall k :: 0 <= k < |lines| ==> !Contains(lines[k], PROJECT_FS)) ==> QuotaOfLines(lines) == Ok(None)
    ensures forall k :: 0 <= k < |lines| && Contains(lines[k], PROJECT_FS)
                        && (forall j :: 0 <= j < k ==> !Contains(lines[j], PROJECT_FS)) ==>
                        QuotaOfLines(lines) == LineQuota(lines[k])
  {
    if lines != [] {
      QuotaOfLinesFirstMatch(lines[1..]);
      forall k | 0 < k < |lines| && Contains(lines[k], PROJECT_FS)
                 && (forall j :: 0 <= j < k ==> !Contains(lines[j], PROJECT_FS))
        ensures QuotaOfLines(lines) == LineQuota(lines[k])
      {
        assert !Contains(lines[0], PROJECT_FS);
        assert lines[1..][k - 1] == lines[k];
        forall j | 0 <= j < k - 1
          ensures !Contains(lines[1..][j], PROJECT_FS)
        {
          assert lines[1..][j] == lines[j + 1];
        }
      }
      if forall k :: 0 <= k < |lines| ==> !Contains(lines[k], PROJECT_FS) {
        forall j | 0 <= j < |lines| - 1
          ensures !Contains(lines[1..][j], PROJECT_FS)
        {
          assert lines[1..][j] == lines[j + 1];
        }
      }
    }
  }

  /**
   * The outcome of reading the query output once the first line mentioning
   * the file system is line `k`: `IndexError` exactly when that line has
   * fewer than four fields, `ValueError` carrying the fourth field exactly
   * when that field is not an integer, and otherwise that field in GB.
   */
  lemma QuotaOfLinesOutcome(lines: seq<string>, k: nat)
    requires k < |lines| && Contains(lines[k], PROJECT_FS)
    requires forall j :: 0 <= j < k ==> !Contains(lines[j], PROJECT_FS)
    ensures var parts, r := Fields(lines[k]), QuotaOfLines(lines);
            && (r == Err(IndexError) <==> |parts| < 4)
            && (|parts| >= 4 ==> (r == Err(ValueError(parts[3])) <==> ParseInt(parts[3]).None?))
            && (r.Ok? <==> |parts| >= 4 && ParseInt(parts[3]).Some?)
            && (r.Ok? ==> r.value == Some(KbToGb(ParseInt(parts[3]).value)))
  {
    QuotaOfLinesFirstMatch(lines);
  }

  /**
   * The loop of `check_quota` over the lines of the query output: returns at
   * the first line that mentions the file system.
   */
  method ReadQuota(stdout: string) returns (r: Result<Option<int>, PyError>)
    ensures r == QuotaOfListing(stdout)
  {
    var lines := SplitOn(stdout, '\n');
    var i := 0;
    while i < |lines|
      invariant i <= |lines|
      invariant QuotaOfLines(lines[i..]) == QuotaOfLines(lines)
    {
      if Contains(lines[i], PROJECT_FS) {
        var parts := Fields(lines[i]);
        if |parts| < 4 {
          return Err(IndexError);
        }
        var kb := ParseInt(parts[3]);
        if kb.None? {
          return Err(ValueError(parts[3]));
        }
        return Ok(Some(KbToGb(kb.value)));
      }
      assert lines[i..][1..] == lines[i + 1..];
      i := i + 1;
    }
    return Ok(None);
  }

  // ---------------------------------------------------------------------------
  // The query output after a `setquota`
  // ---------------------------------------------------------------------------

  /** The first line of the query output, naming the project. */
  function ListingHeader(gid: nat): string {
    "Disk quotas for prj " + Decimal(gid) + " (pid " + Decimal(gid) + "):"
  }

  /** The column titles of the query output. */
  const LISTING_COLUMNS: string :=
    "     Filesystem" + "  kbytes" + "   quota" + "   limit" + "   grace" + "   files" + "   quota" + "   limit" + "   grace"

  /** The data row for the file system: nothing used, hard block limit `kb`, no inode limits. */
  function ListingRow(kb: int): string {
    "      " + JoinWords([PROJECT_FS, "0", "0", IntToStr(kb), "-", "0", "0", "0", "-"])
  }

  /** What `lfs quota -p <gid> /net/pr2/` prints for an empty project whose hard block limit is `kb`. */
  function Listing(gid: nat, kb: int): string {
    ListingHeader(gid) + "\n" + LISTING_COLUMNS + "\n" + ListingRow(kb) + "\n"
  }

  /** The title line holds neither a slash nor a line break. */
  lemma HeaderLine(gid: nat)
    ensures '/' !in ListingHeader(gid) && '\n' !in ListingHeader(gid)
  {
    var d := Decimal(gid);
    assert '/' !in d && '\n' !in d by {
      assert forall i :: 0 <= i < |d| ==> IsDigit(d[i]);
    }
    assert '/' !in "Disk quotas for prj " && '\n' !in "Disk quotas for prj ";
    assert '/' !in " (pid " && '\n' !in " (pid ";
    assert '/' !in "):" && '\n' !in "):";
  }

  /** Nor does the line of column titles. */
  lemma ColumnsLine()
    ensures '/' !in LISTING_COLUMNS && '\n' !in LISTING_COLUMNS
  {
    assert '/' !in "     Filesystem" && '\n' !in "     Filesystem";
    assert '/' !in "  kbytes" && '\n' !in "  kbytes";
    assert '/' !in "   quota" && '\n' !in "   quota";
    assert '/' !in "   limit" && '\n' !in "   limit";
    assert '/' !in "   grace" && '\n' !in "   grace";
    assert '/' !in "   files" && '\n' !in "   files";
  }

  lemma ListingRowLine(kb: int)
    ensures '\n' !in ListingRow(kb)
    ensures Contains(ListingRow(kb), PROJECT_FS)
    ensures Fields(ListingRow(kb)) == [PROJECT_FS, "0", "0", IntToStr(kb), "-", "0", "0", "0", "-"]
  {
    var ws := [PROJECT_FS, "0", "0", IntToStr(kb), "-", "0", "0", "0", "-"];
    IntToStrIsWord(kb);
    assert IsWord(PROJECT_FS);
    assert IsWord("-");
    assert IsWord("0");
    assert forall k :: 0 <= k < |ws| ==> IsWord(ws[k]);
    JoinWordsSpaces(ws);
    FieldsOfJoin(ws);
    FieldsSkipsSpaces("      ", JoinWords(ws));
    var row := ListingRow(kb);
    assert row[6..6 + |PROJECT_FS|] == PROJECT_FS;
    assert OccursAt(row, PROJECT_FS, 6);
    ContainsIff(row, PROJECT_FS);
  }

  /** The query output is three lines, each ended by a line break. */
  lemma ListingLines(gid: nat, kb: int)
    ensures SplitOn(Listing(gid, kb), '\n') == [ListingHeader(gid), LISTING_COLUMNS, ListingRow(kb), ""]
  {
    var header, row := ListingHeader(gid), ListingRow(kb);
    HeaderLine(gid);
    ColumnsLine();
    ListingRowLine(kb);
    assert Listing(gid, kb) == header + ['\n'] + (LISTING_COLUMNS + ['\n'] + (row + ['\n'] + ""));
    SplitOnFirst(header, '\n', LISTING_COLUMNS + ['\n'] + (row + ['\n'] + ""));
    SplitOnFirst(LISTING_COLUMNS, '\n', row + ['\n'] + "");
    SplitOnFirst(row, '\n', "");
  }

  /** The query output written by a `setquota` reads back as that limit, converted to GB. */
  lemma QuotaOfListingReadsLimit(gid: nat, kb: int)
    ensures QuotaOfListing(Listing(gid, kb)) == Ok(Some(KbToGb(kb)))
  {
    var lines := [ListingHeader(gid), LISTING_COLUMNS, ListingRow(kb), ""];
    ListingLines(gid, kb);
    HeaderLine(gid);
    ColumnsLine();
    ListingRowLine(kb);
    NotContainsMissingChar(ListingHeader(gid), PROJECT_FS, '/');
    NotContainsMissingChar(LISTING_COLUMNS, PROJECT_FS, '/');
    IntToStrRoundTrip(kb);
    assert QuotaOfLines(lines) == QuotaOfLines(lines[1..]);
    assert lines[1..][1..] == lines[2..];
    assert QuotaOfLines(lines[1..]) == QuotaOfLines(lines[2..]);
    assert QuotaOfLines(lines[2..]) == LineQuota(ListingRow(kb));
  }

  /** After `set_quota(gid, gb)`, `check_quota(gid)` returns `gb`. */
  lemma SetQuotaReadsBack(gid: nat, gb: int)
    ensures QuotaOfListing(Listing(gid, GbToKb(gb))) == Ok(Some(gb))
  {
    QuotaOfListingReadsLimit(gid, GbToKb(gb));
    KbToGbOfGbToKb(gb);
  }
}
