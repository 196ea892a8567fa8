/** The per-file decisions of moveFile that only compute values:
    which timestamp dates a file (getFileTime, getJpegTime), how that date
    is rendered with Go's layout "2006-01-02", and the destination path
    `dst/YYYY-MM-DD/name` (main.go:56-58, 109-135). */
module DatePath {
  import opened Wrappers

  type Month = m: int | 1 <= m <= 12 witness 1
  type Day = d: int | 1 <= d <= 31 witness 1

  /** The calendar date a time.Time shows in its own location. */
  datatype Date = Date(year: int, month: Month, day: Day)

  // ---------------------------------------------------------------------
  // Decimal digits, as Go's time package writes numeric fields

  predicate IsDigit(c: char) { '0' <= c <= '9' }

  predicate AllDigits(s: string) { forall i :: 0 <= i < |s| ==> IsDigit(s[i]) }

  function DigitChar(d: nat): (c: char)
    requires d < 10
    ensures IsDigit(c) && DigitValue(c) == d
  {
    ('0' as int + d) as char
  }

  function DigitValue(c: char): nat
    requires IsDigit(c)
  {
    c as int - '0' as int
  }

  function Pow10(k: nat): (p: nat)
    ensures p >= 1
  {
    if k == 0 then 1 else 10 * Pow10(k - 1)
  }

  /** The decimal digits of `n`, zero-padded on the left to at least `width`
      digits: what Go's time package writes for a non-negative field with a
      minimum width (appendInt). */
  function Digits(n: nat, width: nat): (s: string)
    ensures |s| >= 1 && |s| >= width
    ensures AllDigits(s)
    decreases n + width
  {
    if n < 10 && width <= 1 then [DigitChar(n)]
    else Digits(n / 10, if width == 0 then 0 else width - 1) + [DigitChar(n % 10)]
  }

  /** The value of a string of decimal digits, most significant first. */
  function ParseDigits(s: string): nat
    requires AllDigits(s)
  {
    if s == [] then 0 else 10 * ParseDigits(s[..|s| - 1]) + DigitValue(s[|s| - 1])
  }

  /** Zero padding never loses the value: reading the digits back gives `n`. */
  lemma {:induction false} DigitsRoundTrip(n: nat, width: nat)
    ensures ParseDigits(Digits(n, width)) == n
    decreases n + width
  {
    var s := Digits(n, width);
    if n < 10 && width <= 1 {
      assert s[..|s| - 1] == [];
    } else {
      var w' := if width == 0 then 0 else width - 1;
      var t := Digits(n / 10, w');
      assert s == t + [DigitChar(n % 10)];
      assert s[..|s| - 1] == t;
      DigitsRoundTrip(n / 10, w');
    }
  }

  /** A value below 10^width takes exactly `width` digits. */
  lemma {:induction false} DigitsWidth(n: nat, width: nat)
    requires 1 <= width && n < Pow10(width)
    ensures |Digits(n, width)| == width
    decreases width
  {
    if n < 10 && width <= 1 {
    } else {
      assert Pow10(1) == 10;
      assert width >= 2;
      assert n / 10 < Pow10(width - 1);
      DigitsWidth(n / 10, width - 1);
    }
  }

  // ---------------------------------------------------------------------
  // The date bucket "2006-01-02"

  /** The year field of layout "2006": at least four digits, with a leading
      '-' for years before year 0. */
  function YearText(year: int): string
  {
    if year < 0 then "-" + Digits(-year, 4) else Digits(year, 4)
  }

  /** time.Time.Format("2006-01-02") of a date. */
  function DateDir(d: Date): string
  {
    YearText(d.year) + "-" + Digits(d.month, 2) + "-" + Digits(d.day, 2)
  }

  /** For years 0..9999 the bucket is exactly ten characters `YYYY-MM-DD`. */
  lemma DateDirShape(d: Date)
    requires 0 <= d.year <= 9999
    ensures var s := DateDir(d);
      |s| == 10 && s[4] == '-' && s[7] == '-' &&
      forall i :: 0 <= i < 10 && i != 4 && i != 7 ==> IsDigit(s[i])
  {
    assert Pow10(4) == 10000 && Pow10(2) == 100;
    DigitsWidth(d.year, 4);
    DigitsWidth(d.month, 2);
    DigitsWidth(d.day, 2);
  }

  /** Reads a `YYYY-MM-DD` bucket name back into a date. */
  function ParseDateDir(s: string): Option<Date>
  {
    if |s| == 10 && s[4] == '-' && s[7] == '-'
       && AllDigits(s[..4]) && AllDigits(s[5..7]) && AllDigits(s[8..])
    then
      var month := ParseDigits(s[5..7]);
      var day := ParseDigits(s[8..]);
      if 1 <= month <= 12 && 1 <= day <= 31 then Some(Date(ParseDigits(s[..4]), month, day))
      else None
    else None
  }

  /** The bucket name determines the date it was made from. */
  lemma DateDirRoundTrip(d: Date)
    requires 0 <= d.year <= 9999
    ensures ParseDateDir(DateDir(d)) == Some(d)
  {
    var s := DateDir(d);
    DateDirShape(d);
    assert Pow10(4) == 10000 && Pow10(2) == 100;
    DigitsWidth(d.year, 4);
    DigitsWidth(d.month, 2);
    DigitsWidth(d.day, 2);
    assert s[..4] == Digits(d.year, 4);
    assert s[5..7] == Digits(d.month, 2);
    assert s[8..] == Digits(d.day, 2);
    DigitsRoundTrip(d.year, 4);
    DigitsRoundTrip(d.month, 2);
    DigitsRoundTrip(d.day, 2);
  }

  /** Distinct dates (years 0..9999) land in distinct buckets. */
  lemma DateDirInjective(d1: Date, d2: Date)
    requires 0 <= d1.year <= 9999 && 0 <= d2.year <= 9999
    ensures DateDir(d1) == DateDir(d2) ==> d1 == d2
  {
    DateDirRoundTrip(d1);
    DateDirRoundTrip(d2);
  }

  // ---------------------------------------------------------------------
  // Extension, lower-casing and the JPEG test of getFileTime

  /** The index of the last '/' in `path`, or -1: the final element of
      `path` starts after it. */
  function LastSep(path: string): (k: int)
    ensures -1 <= k < |path|
    ensures k >= 0 ==> path[k] == '/'
    ensures forall i :: k < i < |path| ==> path[i] != '/'
  {
    if |path| == 0 then -1
    else if path[|path| - 1] == '/' then |path| - 1
    else LastSep(path[..|path| - 1])
  }

  /** filepath.Ext: the suffix from the last '.' of the final path element,
      or "" when that element has no '.'. */
  function Ext(path: string): string
    decreases |path|
  {
    if |path| == 0 || path[|path| - 1] == '/' then []
    else if path[|path| - 1] == '.' then path[|path| - 1..]
    else
      var e := Ext(path[..|path| - 1]);
      if e == [] then [] else e + [path[|path| - 1]]
  }

  /** The extension is a suffix of the path that starts at a '.' and holds
      no other '.' and no '/'; it is empty exactly when the final element
      has no '.'. */
  lemma {:induction false} ExtSpec(path: string)
    ensures var r := Ext(path);
      && |r| <= |path| && r == path[|path| - |r|..]
      && (r != [] ==> r[0] == '.' && forall i :: 1 <= i < |r| ==> r[i] != '.' && r[i] != '/')
      && (r == [] ==> forall i :: LastSep(path) < i < |path| ==> path[i] != '.')
    decreases |path|
  {
    if |path| == 0 || path[|path| - 1] == '/' {
    } else if path[|path| - 1] == '.' {
    } else {
      var p := path[..|path| - 1];
      var c := path[|path| - 1];
      ExtSpec(p);
      var e := Ext(p);
      if e != [] {
        var r := e + [c];
        assert Ext(path) == r;
        assert path[|path| - |r|..] == p[|p| - |e|..] + [c];
        forall i | 1 <= i < |r|
          ensures r[i] != '.' && r[i] != '/'
        {
          if i < |e| {
            assert r[i] == e[i];
          } else {
            assert r[i] == c;
          }
        }
      } else {
        assert Ext(path) == [];
        assert LastSep(path) == LastSep(p);
        forall i | LastSep(path) < i < |path|
          ensures path[i] != '.'
        {
          if i < |p| {
            assert path[i] == p[i];
          }
        }
      }
    }
  }

  /** A '.' followed only by characters other than '.' and '/' is where the
      extension starts. */
  lemma {:induction false} ExtAt(path: string, k: nat)
    requires k < |path| && path[k] == '.'
    requires forall i :: k < i < |path| ==> path[i] != '.' && path[i] != '/'
    ensures Ext(path) == path[k..]
    decreases |path|
  {
    if k < |path| - 1 {
      var p := path[..|path| - 1];
      ExtAt(p, k);
      assert path[k..] == p[k..] + [path[|path| - 1]];
    }
  }

  function LowerChar(c: char): char
  {
    if 'A' <= c <= 'Z' then (c as int + 32) as char else c
  }

  /** strings.ToLower, on ASCII letters. */
  function Lower(s: string): string
  {
    seq(|s|, i requires 0 <= i < |s| => LowerChar(s[i]))
  }

  /** The `switch` of getFileTime: the lower-cased extension is ".jpg" or ".jpeg". */
  predicate IsJpegName(name: string)
  {
    var ext := Lower(Ext(name));
    ext == ".jpg" || ext == ".jpeg"
  }

  /** `name` ends with `suffix`, ignoring the case of ASCII letters. */
  predicate EndsWithIgnoringCase(name: string, suffix: string)
  {
    |name| >= |suffix| && Lower(name[|name| - |suffix|..]) == suffix
  }

  /** Lower-casing maps only '.' to '.', and no character that lower-cases
      to a letter is a '.' or a '/'. */
  lemma LowerCharPreimage(c: char)
    ensures LowerChar(c) == '.' ==> c == '.'
    ensures 'a' <= LowerChar(c) <= 'z' ==> c != '.' && c != '/'
  {
  }

  /** A tail that lower-cases to '.' followed by lower-case letters starts
      with '.' and holds no other '.' and no '/'. */
  lemma LowerTailShape(name: string, suffix: string)
    requires |name| >= |suffix| >= 1 && Lower(name[|name| - |suffix|..]) == suffix
    requires suffix[0] == '.' && forall i :: 1 <= i < |suffix| ==> 'a' <= suffix[i] <= 'z'
    ensures name[|name| - |suffix|] == '.'
    ensures forall i :: |name| - |suffix| < i < |name| ==> name[i] != '.' && name[i] != '/'
  {
    var k := |name| - |suffix|;
    var tail := name[k..];
    forall j | 0 <= j < |suffix|
      ensures LowerChar(name[k + j]) == suffix[j]
    {
      assert Lower(tail)[j] == LowerChar(tail[j]);
      assert tail[j] == name[k + j];
    }
    assert name[k] == '.' by {
      assert LowerChar(name[k + 0]) == suffix[0];
      LowerCharPreimage(name[k]);
    }
    forall i | k < i < |name|
      ensures name[i] != '.' && name[i] != '/'
    {
      var j := i - k;
      assert LowerChar(name[k + j]) == suffix[j];
      assert 'a' <= suffix[j] <= 'z';
      LowerCharPreimage(name[i]);
    }
  }

  /** A name whose lower-cased tail is '.' followed by lower-case letters
      has that tail as its extension. */
  lemma LowerSuffixAt(name: string, suffix: string)
    requires |name| >= |suffix| >= 1 && Lower(name[|name| - |suffix|..]) == suffix
    requires suffix[0] == '.' && forall i :: 1 <= i < |suffix| ==> 'a' <= suffix[i] <= 'z'
    ensures Ext(name) == name[|name| - |suffix|..]
  {
    LowerTailShape(name, suffix);
    ExtAt(name, |name| - |suffix|);
  }

  /** The JPEG test is exactly "the name ends in .jpg or .jpeg, in any case". */
  lemma JpegNameIff(name: string)
    ensures IsJpegName(name) <==>
      EndsWithIgnoringCase(name, ".jpg") || EndsWithIgnoringCase(name, ".jpeg")
  {
    ExtSpec(name);
    if EndsWithIgnoringCase(name, ".jpg") {
      LowerSuffixAt(name, ".jpg");
    } else if EndsWithIgnoringCase(name, ".jpeg") {
      LowerSuffixAt(name, ".jpeg");
    }
  }

  // ---------------------------------------------------------------------
  // The effective date

  /** What getJpegTime learns from the file: os.Open fails, exif.Decode
      fails, DateTime() fails, or a capture time is found. */
  datatype ExifProbe = OpenFailed | DecodeFailed | NoDateTime | Captured(time: Date)

  /** getJpegTime: the capture time when all three steps succeed, the
      modification time otherwise. */
  function JpegTime(probe: ExifProbe, modTime: Date): (t: Date)
    ensures probe.Captured? ==> t == probe.time
    ensures !probe.Captured? ==> t == modTime
  {
    match probe
    case OpenFailed => modTime
    case DecodeFailed => modTime
    case NoDateTime => modTime
    case Captured(time) => time
  }

  /** getFileTime: the date that buckets a file. */
  function FileTime(name: string, probe: ExifProbe, modTime: Date): Date
  {
    if IsJpegName(name) then JpegTime(probe, modTime) else modTime
  }

  /** The capture time dates the file exactly when its name ends in .jpg or
      .jpeg, in any case, and the EXIF read found a capture time; every
      other file is dated by its modification time. */
  lemma FileTimeChoice(name: string, probe: ExifProbe, modTime: Date)
    ensures (EndsWithIgnoringCase(name, ".jpg") || EndsWithIgnoringCase(name, ".jpeg")) && probe.Captured?
      ==> FileTime(name, probe, modTime) == probe.time
    ensures !(EndsWithIgnoringCase(name, ".jpg") || EndsWithIgnoringCase(name, ".jpeg")) || !probe.Captured?
      ==> FileTime(name, probe, modTime) == modTime
  {
    JpegNameIff(name);
  }

  // ---------------------------------------------------------------------
  // The destination path

  /** filepath.Join of two elements for a clean `dir`: an empty element is dropped. */
  function Join(dir: string, elem: string): string
  {
    if dir == [] then elem else dir + "/" + elem
  }

  /** The directory moveFile creates: `dst/YYYY-MM-DD`. */
  function DestDir(dst: string, d: Date): string
  {
    Join(dst, DateDir(d))
  }

  /** new_path of moveFile: `dst/YYYY-MM-DD/name`. */
  function DestPath(dst: string, d: Date, name: string): string
  {
    Join(DestDir(dst, d), name)
  }

  /** Splits a path under `dst` back into its date bucket and the rest. */
  function SplitDest(dst: string, p: string): Option<(Date, string)>
  {
    var prefix := if dst == [] then [] else dst + "/";
    if |p| >= |prefix| + 11 && p[..|prefix|] == prefix && p[|prefix| + 10] == '/' then
      match ParseDateDir(p[|prefix|..|prefix| + 10])
      case Some(d) => Some((d, p[|prefix| + 11..]))
      case None => None
    else None
  }

  /** Splitting `dst/mid/name` for a bucket name `mid` recovers its date and `name`. */
  lemma SplitJoined(dst: string, mid: string, name: string, d: Date)
    requires ParseDateDir(mid) == Some(d)
    ensures SplitDest(dst, Join(Join(dst, mid), name)) == Some((d, name))
  {
    var prefix := if dst == [] then [] else dst + "/";
    assert |mid| == 10;
    var p := prefix + mid + "/" + name;
    assert Join(Join(dst, mid), name) == p;
    assert p[..|prefix|] == prefix;
    assert p[|prefix|..|prefix| + 10] == mid;
    assert p[|prefix| + 11..] == name;
  }

  /** The destination path keeps both the effective date (years 0..9999)
      and the original name: its middle component is the date bucket and
      everything after it is exactly the name. */
  lemma DestPathRoundTrip(dst: string, d: Date, name: string)
    requires 0 <= d.year <= 9999
    ensures SplitDest(dst, DestPath(dst, d, name)) == Some((d, name))
  {
    DateDirRoundTrip(d);
    SplitJoined(dst, DateDir(d), name, d);
  }

  /** Two files collide at the destination exactly when they have the same
      effective date and the same name. */
  lemma DestPathCollision(dst: string, d1: Date, n1: string, d2: Date, n2: string)
    requires 0 <= d1.year <= 9999 && 0 <= d2.year <= 9999
    ensures DestPath(dst, d1, n1) == DestPath(dst, d2, n2) <==> d1 == d2 && n1 == n2
  {
    DestPathRoundTrip(dst, d1, n1);
    DestPathRoundTrip(dst, d2, n2);
  }
}
