/** File-name and column-header handling of the EIA-930 demand retrieval:
    the `EBA.<ba>-ALL.D.H` header filter, bucketing of the six-month files
    by year, thousands-separator stripping and file-name derivation. */
module RetrieveEia {
  import opened Outcomes
  import opened Strings
  import Seqs

  datatype EiaError =
    | MissingYearField(fileName: string)   // IndexError on `split('_')[2]`
    | TimestampTaken                       // ValueError from `insert(0, "timestamp", "")`

  const HeaderPrefix: string := "EBA."
  const HeaderMarker: string := "-ALL.D.H"
  const TimestampColumn: string := "timestamp"

  /** `re.match(r'EBA\.(.*?)-ALL\.D\.H', col)` succeeds: the header starts
      with `EBA.` and the marker occurs at or after index 4 with no line
      break in between (`.` does not match a newline). */
  ghost predicate HeaderMatches(col: string)
  {
    StartsWith(col, HeaderPrefix) &&
    exists j :: 4 <= j <= |col| && OccursAt(col, HeaderMarker, j) && '\n' !in col[4..j]
  }

  /** The lazily captured group: the text between `EBA.` and the first
      following `-ALL.D.H`, or None when the header is filtered out. */
  function AuthorityOfHeader(col: string): (r: Option<string>)
    ensures r.Some? <==> HeaderMatches(col)
    ensures r.Some? ==>
      var j := 4 + |r.value|;
      j <= |col| && col[..4] == HeaderPrefix && col[4..j] == r.value &&
      OccursAt(col, HeaderMarker, j) &&
      forall k :: 4 <= k < j ==> !OccursAt(col, HeaderMarker, k)
  {
    if !StartsWith(col, HeaderPrefix) then None
    else
      match FindFrom(col, HeaderMarker, 4)
      case None => None
      case Some(j) =>
        if '\n' in col[4..j] then
          assert !HeaderMatches(col) by {
            forall k | 4 <= k <= |col| && OccursAt(col, HeaderMarker, k)
              ensures '\n' in col[4..k]
            {
              var q :| 0 <= q < |col[4..j]| && col[4..j][q] == '\n';
              assert col[4..k][q] == '\n';
            }
          }
          None
        else Some(col[4..j])
  }

  /** The header of `prepare_historical_load_data`: the matching columns
      renamed to their authority, in their original order, behind a
      leading `timestamp` column. `kept` lists the source positions. The
      insertion raises when a renamed column is already called `timestamp`. */
  method FilterHeader(cols: seq<string>) returns (r: Result<seq<string>, EiaError>, kept: seq<nat>)
    ensures forall k :: 0 <= k < |kept| ==> kept[k] < |cols|
    ensures r.Failure? <==> exists i :: 0 <= i < |cols| && AuthorityOfHeader(cols[i]) == Some(TimestampColumn)
    ensures r.Failure? ==> r.error == TimestampTaken
    ensures r.Success? ==> |r.value| == |kept| + 1 && r.value[0] == TimestampColumn
    ensures r.Success? ==> forall k :: 0 <= k < |kept| ==> AuthorityOfHeader(cols[kept[k]]) == Some(r.value[k + 1])
    ensures forall k, l :: 0 <= k < l < |kept| ==> kept[k] < kept[l]
    ensures forall i :: 0 <= i < |cols| ==> (HeaderMatches(cols[i]) <==> i in kept)
  {
    var names: seq<string> := [];
    kept := [];
    var taken := false;
    var i := 0;
    while i < |cols|
      invariant 0 <= i <= |cols|
      invariant |names| == |kept|
      invariant forall k :: 0 <= k < |kept| ==>
        kept[k] < i && AuthorityOfHeader(cols[kept[k]]) == Some(names[k])
      invariant forall k, l :: 0 <= k < l < |kept| ==> kept[k] < kept[l]
      invariant forall p :: 0 <= p < i ==> (HeaderMatches(cols[p]) <==> p in kept)
      invariant taken <==> exists p :: 0 <= p < i && AuthorityOfHeader(cols[p]) == Some(TimestampColumn)
    {
      match AuthorityOfHeader(cols[i]) {
        case Some(ba) =>
          names := names + [ba];
          kept := kept + [i];
          taken := taken || ba == TimestampColumn;
        case None =>
      }
      i := i + 1;
    }
    r := if taken then Failure(TimestampTaken) else Success([TimestampColumn] + names);
  }

  /** Only files whose name ends in `.csv` are read. */
  predicate IsCsv(fileName: string)
  {
    EndsWith(fileName, ".csv")
  }

  /** `file_name.split('_')[2]`, raising IndexError for fewer than three fields. */
  function YearKey(fileName: string): (r: Result<string, EiaError>)
    ensures r.Success? <==> CountChar(fileName, '_') >= 2
    ensures r.Failure? ==> r.error == MissingYearField(fileName)
    ensures r.Success? ==> '_' !in r.value
    ensures r.Success? ==> ThirdFieldIs(fileName, '_', r.value)
  {
    var fields := Split(fileName, '_');
    if |fields| < 3 then Failure(MissingYearField(fileName))
    else
      ThirdFieldOfSplit(fileName, '_');
      Success(fields[2])
  }

  /** The download names `EIA930_BALANCE_<year>_<half>.csv` yield their year,
      whatever the half-year part holds (it is `Jan_Jun` or `Jul_Dec`). */
  lemma YearKeyOfSixMonthFile(year: string, half: string)
    requires '_' !in year
    ensures YearKey("EIA930_BALANCE_" + year + "_" + half + ".csv") == Success(year)
  {
    var tail := half + ".csv";
    var afterTable := year + "_" + tail;
    var afterSource := "BALANCE" + "_" + afterTable;
    assert "EIA930_BALANCE_" + year + "_" + half + ".csv" == "EIA930" + "_" + afterSource;
    SplitAfterField(year, tail, '_');
    SplitAfterField("BALANCE", afterTable, '_');
    SplitAfterField("EIA930", afterSource, '_');
  }

  /** The two downloads of one year share its key. */
  lemma YearKeyOfJanJun(year: string)
    requires '_' !in year
    ensures YearKey("EIA930_BALANCE_" + year + "_Jan_Jun.csv") == Success(year)
  {
    YearKeyOfSixMonthFile(year, "Jan_Jun");
    assert "EIA930_BALANCE_" + year + "_Jan_Jun.csv" == "EIA930_BALANCE_" + year + "_" + "Jan_Jun" + ".csv";
  }

  /** The csv files of the listing whose year key is `year`, in listing order. */
  function FilesOfYear(files: seq<string>, year: string): seq<string>
  {
    Seqs.Filter(files, (f: string) => IsCsv(f) && YearKey(f) == Success(year))
  }

  /** Every csv name of the listing has a year field. */
  predicate AllCsvHaveYear(files: seq<string>)
  {
    forall i :: 0 <= i < |files| && IsCsv(files[i]) ==> CountChar(files[i], '_') >= 2
  }

  /** The `dfs` dictionary of `read_and_concat_csvs`, built in listing order
      (file names stand for the frames read from them). */
  function Buckets(files: seq<string>): (r: Result<map<string, seq<string>>, EiaError>)
    ensures r.Success? <==> AllCsvHaveYear(files)
  {
    if |files| == 0 then Success(map[])
    else
      var init := files[..|files| - 1];
      var f := files[|files| - 1];
      assert forall i :: 0 <= i < |init| ==> init[i] == files[i];
      var m :- Buckets(init);
      if !IsCsv(f) then Success(m)
      else
        var year :- YearKey(f);
        Success(m[year := (if year in m then m[year] else []) + [f]])
  }

  /** Each bucket holds exactly the csv files of its year, in listing order,
      and a year has a bucket iff some csv file carries it. */
  lemma {:induction false} BucketsAreYearFilters(files: seq<string>)
    requires AllCsvHaveYear(files)
    ensures forall y :: y in Buckets(files).value ==> Buckets(files).value[y] == FilesOfYear(files, y)
    ensures forall y :: y in Buckets(files).value <==> FilesOfYear(files, y) != []
  {
    if |files| > 0 {
      var init := files[..|files| - 1];
      var f := files[|files| - 1];
      assert files == init + [f];
      assert AllCsvHaveYear(init) by {
        forall i | 0 <= i < |init| && IsCsv(init[i]) ensures CountChar(init[i], '_') >= 2 {
          assert init[i] == files[i];
        }
      }
      BucketsAreYearFilters(init);
      BucketsStep(init, f);
    }
  }

  /** Appending one file to the listing keeps the buckets equal to the
      year filters. */
  lemma BucketsStep(init: seq<string>, f: string)
    requires AllCsvHaveYear(init + [f]) && AllCsvHaveYear(init)
    requires forall y :: y in Buckets(init).value ==> Buckets(init).value[y] == FilesOfYear(init, y)
    requires forall y :: y in Buckets(init).value <==> FilesOfYear(init, y) != []
    ensures forall y :: y in Buckets(init + [f]).value ==> Buckets(init + [f]).value[y] == FilesOfYear(init + [f], y)
    ensures forall y :: y in Buckets(init + [f]).value <==> FilesOfYear(init + [f], y) != []
  {
    var files := init + [f];
    assert files[..|files| - 1] == init;
    var m := Buckets(init).value;
    FilesOfYearSnoc(init, f);
    if !IsCsv(f) {
      assert Buckets(files).value == m;
    } else {
      assert CountChar(files[|files| - 1], '_') >= 2;
      var year := YearKey(f).value;
      assert Buckets(files).value == m[year := (if year in m then m[year] else []) + [f]];
    }
  }

  /** Appending one file adds it to its own year's filter only. */
  lemma FilesOfYearSnoc(init: seq<string>, f: string)
    ensures forall y ::
      FilesOfYear(init + [f], y) == FilesOfYear(init, y) + (if IsCsv(f) && YearKey(f) == Success(y) then [f] else [])
  {
    assert [f][1..] == [];
    forall y
      ensures FilesOfYear(init + [f], y) ==
        FilesOfYear(init, y) + (if IsCsv(f) && YearKey(f) == Success(y) then [f] else [])
    {
      Seqs.FilterConcat(init, [f], (g: string) => IsCsv(g) && YearKey(g) == Success(y));
    }
  }

  /** The name each year's bucket is written to. */
  function OutputFileName(year: string): string
  {
    "EIA_DMD_" + year + ".csv"
  }

  /** Distinct years are written to distinct files, so no bucket overwrites another. */
  lemma OutputFileNamesDistinct(y1: string, y2: string)
    requires y1 != y2
    ensures OutputFileName(y1) != OutputFileName(y2)
  {
    var n1, n2 := OutputFileName(y1), OutputFileName(y2);
    assert n1[8..|n1| - 4] == y1;
    assert n2[8..|n2| - 4] == y2;
  }

  /** `str.replace(',', '')` on a demand string. */
  function StripCommas(s: string): (r: string)
    ensures ',' !in r
    ensures |r| == |s| - CountChar(s, ',')
  {
    if |s| == 0 then ""
    else (if s[0] == ',' then "" else [s[0]]) + StripCommas(s[1..])
  }

  /** Stripping distributes over concatenation and keeps every other
      character: the remaining characters keep their order. */
  lemma {:induction false} StripCommasConcat(a: string, b: string)
    ensures StripCommas(a + b) == StripCommas(a) + StripCommas(b)
  {
    if |a| == 0 {
      assert a + b == b;
    } else {
      assert (a + b)[1..] == a[1..] + b;
      StripCommasConcat(a[1..], b);
    }
  }

  /** A string without separators is unchanged. */
  lemma {:induction false} StripCommasNoComma(s: string)
    requires ',' !in s
    ensures StripCommas(s) == s
  {
    if |s| > 0 {
      assert s[0] in s;
      StripCommasNoComma(s[1..]);
      assert [s[0]] + s[1..] == s;
    }
  }

  /** `url.split('/')[-1]`: the name a download is saved under. */
  function UrlFileName(url: string): (r: string)
    ensures '/' !in r
    ensures EndsWith(url, r)
    ensures |r| < |url| ==> url[|url| - |r| - 1] == '/'
  {
    LastField(url, '/')
  }

  /** A separator-free suffix starts after every separator. */
  lemma SeparatorBeforeSuffix(s: string, suffix: string, sep: char, i: int)
    requires EndsWith(s, suffix) && sep !in suffix
    requires 0 <= i < |s| && s[i] == sep
    ensures i < |s| - |suffix|
  {
  }

  /** The saved name is exactly the text after the last slash. */
  lemma UrlFileNameAfterLastSlash(dir: string, name: string)
    requires '/' !in name
    ensures UrlFileName(dir + "/" + name) == name
  {
    var url := dir + "/" + name;
    var r := UrlFileName(url);
    SeparatorBeforeSuffix(url, r, '/', |url| - |name| - 1);
    assert |r| >= |name|;
    assert r == url[|url| - |r|..];
    assert url[|url| - |name|..] == name;
  }
}
