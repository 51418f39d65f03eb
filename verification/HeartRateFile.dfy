/**
 * The output file: choosing the mode from the file name (`_get_heart_rate_file_extension`),
 * the overwrite content (`_write_heartrate`) and the CSV append (`_write_heartrate_csv`).
 * A file is modelled by its whole text content.
 */
module HeartRateFile {
  import opened Wrappers
  import opened Decimal
  import opened HeartRates

  /**
   * Python's `name.split(".")[-1]`: the text after the last dot, or the whole name when it
   * holds no dot.
   */
  function FileExtension(name: string): string
  {
    if |name| == 0 then ""
    else if name[|name| - 1] == '.' then ""
    else FileExtension(name[..|name| - 1]) + [name[|name| - 1]]
  }

  /** The extension holds no dot, ends the name, and is the whole name or follows a dot. */
  lemma {:induction false} FileExtensionShape(name: string)
    ensures var ext := FileExtension(name);
      && '.' !in ext
      && |ext| <= |name| && name[|name| - |ext|..] == ext
      && (|ext| < |name| ==> name[|name| - |ext| - 1] == '.')
  {
    if |name| > 0 && name[|name| - 1] != '.' {
      var init, c := name[..|name| - 1], name[|name| - 1];
      FileExtensionShape(init);
      var e := FileExtension(init);
      assert name == init + [c];
      SuffixSnoc(init, c, |init| - |e|);
      if |e| < |init| {
        assert name[|init| - |e| - 1] == init[|init| - |e| - 1];
      }
    }
  }

  lemma SuffixSnoc(init: string, c: char, k: nat)
    requires k <= |init|
    ensures (init + [c])[k..] == init[k..] + [c]
  {
  }

  /** Adding a character other than a dot extends the extension; adding a dot empties it. */
  lemma FileExtensionSnoc(name: string, c: char)
    ensures FileExtension(name + [c]) == if c == '.' then "" else FileExtension(name) + [c]
  {
    assert (name + [c])[..|name|] == name;
  }

  /**
   * Output goes to CSV exactly when the name ends in ".csv" or is "csv" itself: a name with no
   * dot counts as its own extension.
   */
  lemma CsvModeIff(name: string)
    ensures FileExtension(name) == "csv" <==>
      name == "csv" || (|name| >= 4 && name[|name| - 4] == '.' && name[|name| - 3..] == "csv")
  {
    if FileExtension(name) == "csv" {
      FileExtensionShape(name);
      EndsWithExtension(name, FileExtension(name));
    }
    if name == "csv" || (|name| >= 4 && name[|name| - 4] == '.' && name[|name| - 3..] == "csv") {
      CsvNameExtension(name);
    }
  }

  /** A name ending in ".csv", or the name "csv" itself, has extension "csv". */
  lemma CsvNameExtension(name: string)
    requires name == "csv" || (|name| >= 4 && name[|name| - 4] == '.' && name[|name| - 3..] == "csv")
    ensures FileExtension(name) == "csv"
  {
    var n := |name|;
    if n >= 4 && name[n - 4] == '.' && name[n - 3..] == "csv" {
      var ext := name[n - 3..];
      assert '.' !in ext;
      assert name == name[..n - 3] + ext;
      ExtensionAfterDot(name[..n - 3], ext);
    } else {
      assert '.' !in name;
      ExtensionOfDotFreeName(name);
    }
  }

  /** The text after a final dot is the extension. */
  lemma {:induction false} ExtensionAfterDot(q: string, e: string)
    requires |q| > 0 && q[|q| - 1] == '.'
    requires '.' !in e
    ensures FileExtension(q + e) == e
  {
    if e == [] {
      assert q + e == q;
    } else {
      var init := e[..|e| - 1];
      var c := e[|e| - 1];
      assert forall i :: 0 <= i < |init| ==> init[i] == e[i];
      ExtensionAfterDot(q, init);
      FileExtensionSnoc(q + init, c);
      assert q + e == (q + init) + [c];
      assert init + [c] == e;
    }
  }

  /** A name without a dot is its own extension. */
  lemma {:induction false} ExtensionOfDotFreeName(name: string)
    requires '.' !in name
    ensures FileExtension(name) == name
  {
    if name != [] {
      var init := name[..|name| - 1];
      assert forall i :: 0 <= i < |init| ==> init[i] == name[i];
      ExtensionOfDotFreeName(init);
      assert name == init + [name[|name| - 1]];
    }
  }

  /** A dot-free suffix "csv" that is the whole name or follows a dot. */
  lemma EndsWithExtension(name: string, ext: string)
    requires |ext| <= |name| && name[|name| - |ext|..] == ext
    requires |ext| < |name| ==> name[|name| - |ext| - 1] == '.'
    requires ext == "csv"
    ensures name == "csv" || (|name| >= 4 && name[|name| - 4] == '.' && name[|name| - 3..] == "csv")
  {
    var n := |name|;
    if n > 3 {
      assert name[n - 4..] == [name[n - 4]] + name[n - 3..];
    }
  }

  /** The header row written before the first row of an empty CSV file. */
  const Header: string := "UNIX millis timestamp;heartrate\n"

  /** One CSV row, `measured_at;heart_rate` and a newline. */
  function CsvRow(hr: HeartRate): (row: string)
  {
    IntToString(hr.measuredAt) + ";" + IntToString(hr.heartRate) + "\n"
  }

  /** Position of the first `c` in `s`. */
  function IndexOf(s: string, c: char): (r: Option<nat>)
    ensures r.Some? ==> r.value < |s| && s[r.value] == c && c !in s[..r.value]
    ensures r.None? ==> c !in s
  {
    if s == [] then None
    else if s[0] == c then Some(0)
    else match IndexOf(s[1..], c)
      case None => None
      case Some(i) => assert s[..i + 1] == [s[0]] + s[1..][..i]; Some(i + 1)
  }

  /** Reads one CSV row back: two integers separated by the first ';', ended by a newline. */
  function ParseRow(line: string): Option<HeartRate>
  {
    if |line| == 0 || line[|line| - 1] != '\n' then None
    else
      var body := line[..|line| - 1];
      match IndexOf(body, ';')
      case None => None
      case Some(i) =>
        match (ParseInt(body[..i]), ParseInt(body[i + 1..]))
        case (Some(at), Some(rate)) => Some(HeartRate(at, rate))
        case _ => None
  }

  /** The first `c` of `a + [c] + b` is the one after `a` when `a` holds none. */
  lemma {:induction false} IndexOfAfter(a: string, c: char, b: string)
    requires c !in a
    ensures IndexOf(a + [c] + b, c) == Some(|a|)
  {
    if a != [] {
      assert (a + [c] + b)[1..] == a[1..] + [c] + b;
      IndexOfAfter(a[1..], c, b);
    }
  }

  /** Every row reads back as the sample it was written from. */
  lemma CsvRowRoundTrip(hr: HeartRate)
    ensures ParseRow(CsvRow(hr)) == Some(hr)
  {
    var a := IntToString(hr.measuredAt);
    var b := IntToString(hr.heartRate);
    var body := a + ";" + b;
    assert CsvRow(hr)[..|CsvRow(hr)| - 1] == body;
    IndexOfAfter(a, ';', b);
    assert body[..|a|] == a;
    assert body[|a| + 1..] == b;
    IntToStringRoundTrip(hr.measuredAt);
    IntToStringRoundTrip(hr.heartRate);
  }

  /**
   * The overwrite-mode content: the value in decimal, replacing whatever the file held. It is
   * the canonical text: a minus sign only for a negative value and no leading zero.
   */
  function OverwriteContent(value: int): (content: string)
    ensures ParseInt(content) == Some(value)
    ensures content[0] == '-' <==> value < 0
    ensures content[0] == '0' ==> content == "0"
    ensures value < 0 ==> content[1] != '0'
  {
    IntToStringRoundTrip(value);
    IntToString(value)
  }

  /** What an append puts between the old content and the new row: the header, for an empty file only. */
  function HeaderIfEmpty(file: string): string
  {
    if file == [] then Header else ""
  }

  /**
   * Appending one sample: the header first when the file is empty, then its row.
   * What the file held before is kept as it was.
   */
  function CsvAppend(file: string, hr: HeartRate): (r: string)
    ensures |r| == |file| + |HeaderIfEmpty(file)| + |CsvRow(hr)|
    ensures r[..|file|] == file
    ensures r[|file|..|file| + |HeaderIfEmpty(file)|] == HeaderIfEmpty(file)
    ensures r[|file| + |HeaderIfEmpty(file)|..] == CsvRow(hr)
  {
    ThreeParts(file, HeaderIfEmpty(file), CsvRow(hr));
    file + HeaderIfEmpty(file) + CsvRow(hr)
  }

  lemma ThreeParts(a: string, b: string, c: string)
    ensures (a + b + c)[..|a|] == a
    ensures (a + b + c)[|a|..|a| + |b|] == b
    ensures (a + b + c)[|a| + |b|..] == c
  {
  }

  /** Appending samples one after another, oldest first. */
  function CsvAppendAll(file: string, hrs: seq<HeartRate>): string
  {
    if hrs == [] then file else CsvAppend(CsvAppendAll(file, hrs[..|hrs| - 1]), hrs[|hrs| - 1])
  }

  lemma CsvAppendAllSnoc(file: string, hrs: seq<HeartRate>, hr: HeartRate)
    ensures CsvAppendAll(file, hrs + [hr]) == CsvAppend(CsvAppendAll(file, hrs), hr)
  {
    assert (hrs + [hr])[..|hrs|] == hrs;
  }

  /** The rows of `hrs`, oldest first, with no header. */
  function Rows(hrs: seq<HeartRate>): string
  {
    if hrs == [] then "" else Rows(hrs[..|hrs| - 1]) + CsvRow(hrs[|hrs| - 1])
  }

  /** A series of appends writes the header once, only if the file was empty, and then one row per sample. */
  lemma {:induction false} CsvAppendAllContent(file: string, hrs: seq<HeartRate>)
    ensures CsvAppendAll(file, hrs) == file + (if file == [] && hrs != [] then Header else "") + Rows(hrs)
  {
    if hrs != [] {
      var prefix := hrs[..|hrs| - 1];
      var row := CsvRow(hrs[|hrs| - 1]);
      CsvAppendAllContent(file, prefix);
      if prefix != [] {
        RowsNonEmpty(prefix);
      }
      AppendStepShape(file, Rows(prefix), row, Header, CsvAppendAll(file, prefix), prefix == []);
    }
  }

  /** The string algebra of one more append, with the header and the rows left abstract. */
  lemma AppendStepShape(file: string, prefixRows: string, row: string, h: string, before: string, prefixEmpty: bool)
    requires before == file + (if file == [] && !prefixEmpty then h else "") + prefixRows
    requires prefixEmpty <==> prefixRows == []
    requires |h| > 0
    ensures before + (if before == [] then h else "") + row == file + (if file == [] then h else "") + (prefixRows + row)
  {
  }

  lemma RowsNonEmpty(hrs: seq<HeartRate>)
    requires hrs != []
    ensures |Rows(hrs)| > 0
  {
    assert |CsvRow(hrs[|hrs| - 1])| > 0;
  }
}
