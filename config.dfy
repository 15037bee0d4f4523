/**
 * The extension's settings and how the command line sets them: checkImageOutputType,
 * processFileSize, and the flag-scanning loop of parseArgs over the argument strings.
 */
module Config {
  import opened Wrappers
  import opened JavaLang

  // ---------------------------------------------------------------------------------------------
  // checkImageOutputType

  /** The image types the extension can write. */
  predicate KnownOutputType(kind: string) {
    kind == "png" || kind == "jpeg" || kind == "mix"
  }

  /** checkImageOutputType: accepts png, jpeg and mix, exactly as spelled, and raises for anything else. */
  function CheckImageOutputType(kind: string): (r: Option<Exception>)
    ensures r.None? <==> KnownOutputType(kind)
    ensures r.Some? ==> r.value == UnsupportedOutputType(kind)
  {
    if kind == "png" || kind == "jpeg" || kind == "mix" then None
    else Some(UnsupportedOutputType(kind))
  }

  // ---------------------------------------------------------------------------------------------
  // Java long arithmetic

  const LongMin: int := -0x8000_0000_0000_0000
  const LongMax: int := 0x7fff_ffff_ffff_ffff
  const TwoTo64: int := 0x1_0000_0000_0000_0000

  /** A product of longs: the mathematical value wrapped into 64-bit two's complement. */
  function Wrap64(x: int): (r: int)
    ensures LongMin <= r <= LongMax
    ensures (x - r) % TwoTo64 == 0
    ensures LongMin <= x <= LongMax ==> r == x
  {
    var m := (x - LongMin) % TwoTo64;
    assert x - LongMin == (x - LongMin) / TwoTo64 * TwoTo64 + m;
    m + LongMin
  }

  /** Double.longValue: the value rounded toward zero, saturated at the ends of the long range. */
  function LongValue(v: real): (r: int)
    ensures LongMin <= r <= LongMax
    ensures 0.0 <= v < LongMax as real ==> r as real <= v < r as real + 1.0
  {
    if v >= LongMax as real then LongMax
    else if v <= LongMin as real then LongMin
    else if v >= 0.0 then v.Floor
    else -((-v).Floor)
  }

  // ---------------------------------------------------------------------------------------------
  // processFileSize

  /** s.replaceAll("\\D", ""): the decimal digits of s, in order. */
  function Digits(s: string): (r: string)
    ensures AllDigits(r)
  {
    if s == [] then [] else (if IsDigit(s[0]) then [s[0]] else []) + Digits(s[1..])
  }

  /** s.replaceAll("\\d", ""): everything but the decimal digits, in order. */
  function NonDigits(s: string): (r: string)
    ensures forall k :: 0 <= k < |r| ==> !IsDigit(r[k])
  {
    if s == [] then [] else (if IsDigit(s[0]) then [] else [s[0]]) + NonDigits(s[1..])
  }

  function UpperChar(c: char): char {
    if 'a' <= c <= 'z' then (c as int - 'a' as int + 'A' as int) as char else c
  }

  /** String.toUpperCase on the ASCII letters. */
  function Upper(s: string): (r: string)
    ensures |r| == |s|
  {
    if s == [] then [] else [UpperChar(s[0])] + Upper(s[1..])
  }

  /** The byte count of each unit processFileSize knows. */
  function UnitMultiplier(unit: string): Checked<int> {
    if unit == "B" then Ok(1)
    else if unit == "KB" then Ok(1024)
    else if unit == "MB" then Ok(1024 * 1024)
    else if unit == "GB" then Ok(1024 * 1024 * 1024)
    else Err(InvalidSizeUnit(unit))
  }

  /**
   * processFileSize: the digits of s read as a number, times the bytes in the unit that the rest
   * of s names once trimmed and upper-cased; the product is taken in long arithmetic.
   */
  function ProcessFileSize(s: string): (r: Checked<int>)
    ensures r.Ok? ==> LongMin <= r.value <= LongMax
  {
    var value :- ParseDouble(Trim(Digits(s)));
    var unit := Upper(Trim(NonDigits(s)));
    var multiplier :- UnitMultiplier(unit);
    Ok(Wrap64(LongValue(value) * multiplier))
  }

  // ---------------------------------------------------------------------------------------------
  // The settings and the parseArgs scan

  /** The fields of the extension that the command line sets. */
  datatype Settings = Settings(
    imgFileType: string,
    compQual: real,
    doResampling: bool,
    targetRes: real,
    maxRes: real,
    embeddedImageSizeMin: int)

  /** The field initialisers: png, quality 0.8, no resampling, 11.811 and 15.748 px/mm, no embedded images. */
  function Defaults(): Settings {
    Settings("png", 0.8, false, 11.811, 15.748, -1)
  }

  /** Where the scan stands: the settings, and parseArgs' locals input, output, saveAs, typeLoaded. */
  datatype Scan = Scan(
    settings: Settings,
    input: Option<string>,
    output: Option<string>,
    saveAs: bool,
    typeLoaded: bool)

  function StartsWithDash(s: string): bool {
    |s| > 0 && s[0] == '-'
  }

  /** -t: the type is stored before it is checked, so a rejected type stays in the settings. */
  function TypeFlag(kind: string, st: Settings): (Settings, Option<Exception>) {
    (st.(imgFileType := kind), CheckImageOutputType(kind))
  }

  /** -q: raises unless -t came first; the quality must parse. */
  function QualityFlag(value: string, typeLoaded: bool, st: Settings): (Settings, Option<Exception>) {
    if !typeLoaded then (st, Some(QualityWithoutType))
    else
      match ParseDouble(value)
      case Err(e) => (st, Some(e))
      case Ok(q) => (st.(compQual := q), None)
  }

  /**
   * -r at index i: the next argument, whatever it looks like, is the target resolution; the one
   * after it is the maximum unless it starts with '-', in which case the maximum is (4 / 3)
   * times the target in integer division. Also the number of values consumed.
   */
  function ResolutionFlag(args: seq<string>, i: nat, st: Settings): (r: (Settings, nat, Option<Exception>))
    requires i < |args|
    ensures i + 1 + r.1 <= |args|
  {
    if i + 1 >= |args| then (st.(doResampling := true), 0, None)
    else
      match ParseDouble(args[i + 1])
      case Err(e) => (st, 1, Some(e))
      case Ok(t) =>
        var st1 := st.(targetRes := t);
        if i + 2 < |args| && !StartsWithDash(args[i + 2]) then
          match ParseDouble(args[i + 2])
          case Err(e) => (st1, 2, Some(e))
          case Ok(m) => (st1.(maxRes := m, doResampling := true), 2, None)
        else (st1.(maxRes := (4 / 3) as real * t, doResampling := true), 1, None)
  }

  /** -e: the minimum size of embedded images to process, in bytes. */
  function SizeFlag(value: string, st: Settings): (Settings, Option<Exception>) {
    match ProcessFileSize(value)
    case Err(e) => (st, Some(e))
    case Ok(n) => (st.(embeddedImageSizeMin := n), None)
  }

  /**
   * One turn of the loop at index i: the new scan, the index the next turn starts at, and the
   * exception raised, if any. The token is the argument trimmed; the values after a flag are
   * taken as they are. A flag that needs a value but comes last is read like any other token.
   */
  function Step(args: seq<string>, i: nat, s: Scan): (r: (Scan, nat, Option<Exception>))
    requires i < |args|
    ensures i < r.1 <= |args|
    ensures r.0.input != s.input ==> i == 0 && r.0.input == Some(Trim(args[0]))
  {
    var token := Trim(args[i]);
    var hasNext := i + 1 < |args|;
    if token == [] then (s, i + 1, None)
    else if token == "-o" && hasNext then (s.(output := Some(args[i + 1])), i + 2, None)
    else if token == "-s" then (s.(saveAs := true), i + 1, None)
    else if token == "-t" && hasNext then
      var (st, e) := TypeFlag(args[i + 1], s.settings);
      (s.(settings := st, typeLoaded := s.typeLoaded || e.None?), i + 2, e)
    else if token == "-q" && hasNext then
      var (st, e) := QualityFlag(args[i + 1], s.typeLoaded, s.settings);
      (s.(settings := st), i + 2, e)
    else if token == "-r" then
      var (st, n, e) := ResolutionFlag(args, i, s.settings);
      (s.(settings := st), i + 1 + n, e)
    else if token == "-e" && hasNext then
      var (st, e) := SizeFlag(args[i + 1], s.settings);
      (s.(settings := st), i + 2, e)
    else if i == 0 then (s.(input := Some(token)), i + 1, None)
    else (s, i + 1, None)
  }

  /** The scan from index i to the end, stopping at the first exception. */
  function Scanned(args: seq<string>, i: nat, s: Scan): (Scan, Option<Exception>)
    requires i <= |args|
    decreases |args| - i
  {
    if i == |args| then (s, None)
    else
      var (s1, j, e) := Step(args, i, s);
      if e.Some? then (s1, e) else Scanned(args, j, s1)
  }

  /** The scan parseArgs starts with: the object's settings, no input or output, nothing loaded. */
  function Start(settings: Settings): Scan {
    Scan(settings, None, None, false, false)
  }

  /** The extension object, whose settings parseArgs overwrites. */
  class EmbedAndCrop {
    var imgFileType: string
    var compQual: real
    var doResampling: bool
    var targetRes: real
    var maxRes: real
    var embeddedImageSizeMin: int

    function CurrentSettings(): Settings
      reads this
    {
      Settings(imgFileType, compQual, doResampling, targetRes, maxRes, embeddedImageSizeMin)
    }

    constructor ()
      ensures CurrentSettings() == Defaults()
    {
      imgFileType := "png";
      compQual := 0.8;
      doResampling := false;
      targetRes := 11.811;
      maxRes := 15.748;
      embeddedImageSizeMin := -1;
    }

    /** The -t branch: imgFileType = next, then checkImageOutputType. */
    method SetImageType(kind: string) returns (e: Option<Exception>)
      modifies this
      ensures (CurrentSettings(), e) == TypeFlag(kind, old(CurrentSettings()))
    {
      imgFileType := kind;
      e := CheckImageOutputType(imgFileType);
    }

    /** The -q branch. */
    method SetQuality(value: string, typeLoaded: bool) returns (e: Option<Exception>)
      modifies this
      ensures (CurrentSettings(), e) == QualityFlag(value, typeLoaded, old(CurrentSettings()))
    {
      if !typeLoaded {
        return Some(QualityWithoutType);
      }
      var q := ParseDouble(value);
      if q.Err? {
        return Some(q.error);
      }
      compQual := q.value;
      return None;
    }

    /** The -r branch, with the number of values it consumes. */
    method SetResolution(args: seq<string>, i: nat) returns (n: nat, e: Option<Exception>)
      requires i < |args|
      modifies this
      ensures (CurrentSettings(), n, e) == ResolutionFlag(args, i, old(CurrentSettings()))
    {
      if i + 1 < |args| {
        var t := ParseDouble(args[i + 1]);
        if t.Err? {
          return 1, Some(t.error);
        }
        targetRes := t.value;
        if i + 2 < |args| && !StartsWithDash(args[i + 2]) {
          var m := ParseDouble(args[i + 2]);
          if m.Err? {
            return 2, Some(m.error);
          }
          maxRes := m.value;
          n := 2;
        } else {
          maxRes := (4 / 3) as real * targetRes;
          n := 1;
          assert ResolutionFlag(args, i, old(CurrentSettings())).0.maxRes == maxRes;
        }
      } else {
        n := 0;
      }
      doResampling := true;
      e := None;
    }

    /** The -e branch: embeddedImageSizeMin = processFileSize(next). */
    method SetSizeMin(value: string) returns (e: Option<Exception>)
      modifies this
      ensures (CurrentSettings(), e) == SizeFlag(value, old(CurrentSettings()))
    {
      var n := ProcessFileSize(value);
      if n.Err? {
        return Some(n.error);
      }
      embeddedImageSizeMin := n.value;
      return None;
    }

    /** One turn of the loop: the token at index i and the values it consumes. */
    method Turn(args: seq<string>, i: nat, input0: Option<string>, output0: Option<string>, saveAs0: bool, typeLoaded0: bool)
      returns (input: Option<string>, output: Option<string>, saveAs: bool, typeLoaded: bool, j: nat, e: Option<Exception>)
      requires i < |args|
      modifies this
      ensures (Scan(CurrentSettings(), input, output, saveAs, typeLoaded), j, e) ==
        Step(args, i, Scan(old(CurrentSettings()), input0, output0, saveAs0, typeLoaded0))
    {
      input, output, saveAs, typeLoaded, e := input0, output0, saveAs0, typeLoaded0, None;
      var token := Trim(args[i]);
      var hasNext := i + 1 < |args|;
      if token == [] {
        j := i + 1;
      } else if token == "-o" && hasNext {
        output := Some(args[i + 1]);
        j := i + 2;
      } else if token == "-s" {
        saveAs := true;
        j := i + 1;
      } else if token == "-t" && hasNext {
        e := SetImageType(args[i + 1]);
        typeLoaded := typeLoaded || e.None?;
        j := i + 2;
      } else if token == "-q" && hasNext {
        e := SetQuality(args[i + 1], typeLoaded);
        j := i + 2;
      } else if token == "-r" {
        var n;
        n, e := SetResolution(args, i);
        j := i + 1 + n;
      } else if token == "-e" && hasNext {
        e := SetSizeMin(args[i + 1]);
        j := i + 2;
      } else {
        if i == 0 {
          input := Some(token);
        }
        j := i + 1;
      }
    }

    /**
     * The flag loop of parseArgs. Returns its locals input, output, saveAs and typeLoaded, and
     * the exception that ended the loop, if any; settings changed before the exception stay.
     */
    method ParseArgs(args: seq<string>)
      returns (input: Option<string>, output: Option<string>, saveAs: bool, typeLoaded: bool, r: Option<Exception>)
      modifies this
      ensures (Scan(CurrentSettings(), input, output, saveAs, typeLoaded), r) ==
        Scanned(args, 0, Start(old(CurrentSettings())))
    {
      input, output, saveAs, typeLoaded, r := None, None, false, false, None;
      var i := 0;
      while i < |args|
        invariant 0 <= i <= |args|
        invariant Scanned(args, 0, Start(old(CurrentSettings()))) ==
          Scanned(args, i, Scan(CurrentSettings(), input, output, saveAs, typeLoaded))
      {
        var e;
        input, output, saveAs, typeLoaded, i, e := Turn(args, i, input, output, saveAs, typeLoaded);
        if e.Some? {
          return input, output, saveAs, typeLoaded, e;
        }
      }
    }
  }

  // ---------------------------------------------------------------------------------------------
  // Properties of processFileSize

  lemma {:induction false} FiltersOfDigits(d: string)
    requires AllDigits(d)
    ensures Digits(d) == d && NonDigits(d) == []
    decreases |d|
  {
    if d != [] {
      assert IsDigit(d[0]);
      FiltersOfDigits(d[1..]);
      assert [d[0]] + d[1..] == d;
    }
  }

  lemma {:induction false} FiltersOfNonDigits(u: string)
    requires forall k :: 0 <= k < |u| ==> !IsDigit(u[k])
    ensures Digits(u) == [] && NonDigits(u) == u
    decreases |u|
  {
    if u != [] {
      FiltersOfNonDigits(u[1..]);
      assert [u[0]] + u[1..] == u;
    }
  }

  lemma {:induction false} FiltersAppend(a: string, b: string)
    ensures Digits(a + b) == Digits(a) + Digits(b)
    ensures NonDigits(a + b) == NonDigits(a) + NonDigits(b)
    decreases |a|
  {
    if a != [] {
      assert (a + b)[0] == a[0] && (a + b)[1..] == a[1..] + b;
      FiltersAppend(a[1..], b);
    } else {
      assert a + b == b;
    }
  }

  lemma {:induction false} NonDigitsKeeps(s: string, k: nat)
    requires k < |s| && !IsDigit(s[k])
    ensures s[k] in NonDigits(s)
    decreases k
  {
    if k > 0 {
      NonDigitsKeeps(s[1..], k - 1);
      assert s[1..][k - 1] == s[k];
    }
  }

  lemma {:induction false} LeadingKeeps(s: string, k: nat)
    requires k < |s| && s[k] > ' '
    ensures s[k] in TrimLeading(s)
    decreases k
  {
    if s[0] <= ' ' {
      LeadingKeeps(s[1..], k - 1);
      assert s[1..][k - 1] == s[k];
    }
  }

  lemma {:induction false} TrailingKeeps(s: string, k: nat)
    requires k < |s| && s[k] > ' '
    ensures s[k] in TrimTrailing(s)
    decreases |s|
  {
    if s[|s| - 1] <= ' ' {
      TrailingKeeps(s[..|s| - 1], k);
    }
  }

  /** String.trim removes only blanks: every other character of s is still there. */
  lemma TrimKeeps(s: string, k: nat)
    requires k < |s| && s[k] > ' '
    ensures s[k] in Trim(s)
  {
    LeadingKeeps(s, k);
    var t := TrimLeading(s);
    var j :| 0 <= j < |t| && t[j] == s[k];
    TrailingKeeps(t, j);
  }

  lemma {:induction false} UpperKeeps(s: string, k: nat)
    requires k < |s| && !('a' <= s[k] <= 'z')
    ensures Upper(s)[k] == s[k]
    decreases k
  {
    if k > 0 {
      UpperKeeps(s[1..], k - 1);
    }
  }

  /** The digits of a size, once there are any, always parse: to the number they spell. */
  lemma ValueOfDigits(s: string)
    requires Digits(s) != []
    ensures ParseDouble(Trim(Digits(s))) == Ok(DigitsValue(Digits(s)) as real)
  {
    var d := Digits(s);
    assert IsDigit(d[0]) && IsDigit(d[|d| - 1]);
    TrimOfTrimmed(d);
    ParseDoubleOfDigits(d);
  }

  /** A size with no digit at all raises NumberFormatException for the empty string. */
  lemma SizeNeedsDigits(s: string)
    requires forall k :: 0 <= k < |s| ==> !IsDigit(s[k])
    ensures ProcessFileSize(s) == Err(NumberFormat(""))
  {
    FiltersOfNonDigits(s);
    assert Trim([]) == [];
  }

  /**
   * A decimal point is not dropped with the other non-digits of the value: it stays in the unit,
   * so "1.5MB" is rejected as an invalid unit.
   */
  lemma SizeRejectsDecimalPoint(s: string, k: nat)
    requires Digits(s) != [] && k < |s| && s[k] == '.'
    ensures ProcessFileSize(s).Err? && ProcessFileSize(s).error.InvalidSizeUnit?
  {
    ValueOfDigits(s);
    NonDigitsKeeps(s, k);
    var rest := NonDigits(s);
    var j :| 0 <= j < |rest| && rest[j] == '.';
    TrimKeeps(rest, j);
    var t := Trim(rest);
    var m :| 0 <= m < |t| && t[m] == '.';
    UpperKeeps(t, m);
    UnitWithPointInvalid(Upper(t), m);
  }

  /** A unit holding a '.' is none of B, KB, MB and GB. */
  lemma UnitWithPointInvalid(unit: string, m: nat)
    requires m < |unit| && unit[m] == '.'
    ensures UnitMultiplier(unit) == Err(InvalidSizeUnit(unit))
  {
    assert unit != "B" && unit != "KB" && unit != "MB" && unit != "GB";
  }

  /**
   * Any unit other than B, KB, MB and GB (after trimming and upper-casing) raises, naming that
   * unit, once the size has digits.
   */
  lemma SizeRejectsOtherUnit(s: string)
    requires Digits(s) != [] && Upper(Trim(NonDigits(s))) !in {"B", "KB", "MB", "GB"}
    ensures ProcessFileSize(s) == Err(InvalidSizeUnit(Upper(Trim(NonDigits(s)))))
  {
    ValueOfDigits(s);
  }

  /** A whole number n followed by digit-free unit text u: n read back, times u's multiplier, in long arithmetic. */
  lemma SizeOfNumberAndUnit(n: nat, u: string, m: int)
    requires forall k :: 0 <= k < |u| ==> !IsDigit(u[k])
    requires UnitMultiplier(Upper(Trim(u))) == Ok(m)
    ensures ProcessFileSize(NatToDigits(n) + u) == Ok(Wrap64(LongValue(n as real) * m))
  {
    var d := NatToDigits(n);
    FiltersAppend(d, u);
    FiltersOfDigits(d);
    FiltersOfNonDigits(u);
    assert Digits(d + u) == d && NonDigits(d + u) == u;
    ValueOfDigits(d + u);
    NatToDigitsValue(n);
  }

  /** A size that fits in a long: the number times 1, 1024, 1024^2 or 1024^3, whatever the case of the unit. */
  lemma SizeInBytes(n: nat, u: string, m: int)
    requires forall k :: 0 <= k < |u| ==> !IsDigit(u[k])
    requires UnitMultiplier(Upper(Trim(u))) == Ok(m)
    requires n * m <= LongMax
    ensures ProcessFileSize(NatToDigits(n) + u) == Ok(n * m)
  {
    SizeOfNumberAndUnit(n, u, m);
    MultiplierAtLeastOne(Upper(Trim(u)), m);
    WholeLongValue(n, m);
  }

  lemma MultiplierAtLeastOne(unit: string, m: int)
    requires UnitMultiplier(unit) == Ok(m)
    ensures m >= 1
  {
  }

  lemma WholeLongValue(n: nat, m: int)
    requires m >= 1 && n * m <= LongMax
    ensures LongValue(n as real) * m == n * m
  {
    assert n <= n * m;
    assert (n as real).Floor == n;
  }

  /** "20KB" is 20480 bytes. */
  lemma KilobytesExample()
    ensures ProcessFileSize("20KB") == Ok(20480)
  {
    assert NatToDigits(20) + "KB" == "20KB";
    assert Upper(Trim("KB")) == "KB";
    SizeInBytes(20, "KB", 1024);
  }

  /** "1 mb" is 1048576 bytes: the unit may be spaced off and in lower case. */
  lemma MegabytesExample()
    ensures ProcessFileSize("1 mb") == Ok(1048576)
  {
    assert NatToDigits(1) + " mb" == "1 mb";
    assert Upper(Trim(" mb")) == "MB";
    SizeInBytes(1, " mb", 1024 * 1024);
  }

  /**
   * Past Long.MAX_VALUE the value saturates and the product wraps: any such number of kilobytes
   * comes out as -1024 bytes.
   */
  lemma SaturatedKilobytesWrap(n: nat)
    requires n > LongMax
    ensures ProcessFileSize(NatToDigits(n) + "KB") == Ok(-1024)
  {
    assert Upper(Trim("KB")) == "KB";
    SizeOfNumberAndUnit(n, "KB", 1024);
    assert LongValue(n as real) == LongMax;
    MaxKilobytesWrap();
  }

  /** Long.MAX_VALUE * 1024 in long arithmetic is -1024. */
  lemma MaxKilobytesWrap()
    ensures Wrap64(LongMax * 1024) == -1024
  {
    assert LongMax * 1024 - LongMin == 512 * TwoTo64 + 0x7fff_ffff_ffff_fc00;
    assert (LongMax * 1024 - LongMin) % TwoTo64 == 0x7fff_ffff_ffff_fc00;
  }

  // ---------------------------------------------------------------------------------------------
  // Properties of the parseArgs scan

  lemma FlagsAreTrimmed()
    ensures Trim("-o") == "-o" && Trim("-s") == "-s" && Trim("-t") == "-t"
    ensures Trim("-q") == "-q" && Trim("-r") == "-r" && Trim("-e") == "-e"
  {
    TrimOfTrimmed("-o");
    TrimOfTrimmed("-s");
    TrimOfTrimmed("-t");
    TrimOfTrimmed("-q");
    TrimOfTrimmed("-r");
    TrimOfTrimmed("-e");
  }

  /** -q before any -t raises, whatever follows, and changes nothing. */
  lemma QualityNeedsType(q: string, rest: seq<string>, st: Settings)
    ensures Scanned(["-q", q] + rest, 0, Start(st)) == (Start(st), Some(QualityWithoutType))
  {
    FlagsAreTrimmed();
    var args := ["-q", q] + rest;
    assert args[0] == "-q" && args[1] == q;
  }

  /** -t with a known type, then -q: both are stored. */
  lemma TypeThenQuality(t: string, q: string, v: real, st: Settings)
    requires KnownOutputType(t) && ParseDouble(q) == Ok(v)
    ensures Scanned(["-t", t, "-q", q], 0, Start(st)) ==
      (Scan(st.(imgFileType := t, compQual := v), None, None, false, true), None)
  {
    FlagsAreTrimmed();
    var args := ["-t", t, "-q", q];
    var s1 := Scan(st.(imgFileType := t), None, None, false, true);
    var s2 := Scan(st.(imgFileType := t, compQual := v), None, None, false, true);
    assert Step(args, 0, Start(st)) == (s1, 2, None);
    assert QualityFlag(q, true, s1.settings) == (s2.settings, None);
    assert Step(args, 2, s1) == (s2, 4, None);
    assert Scanned(args, 2, s1) == Scanned(args, 4, s2) == (s2, None);
  }

  /** An unknown type raises, but only after it has been stored. */
  lemma UnknownTypeIsStored(t: string, rest: seq<string>, st: Settings)
    requires !KnownOutputType(t)
    ensures Scanned(["-t", t] + rest, 0, Start(st)) ==
      (Start(st.(imgFileType := t)), Some(UnsupportedOutputType(t)))
  {
    FlagsAreTrimmed();
    var args := ["-t", t] + rest;
    assert args[0] == "-t" && args[1] == t;
  }

  /**
   * -r whose value is followed by nothing or by a token starting with '-': the maximum is
   * (4 / 3) times the target in integer arithmetic, which is the target itself.
   */
  lemma ResolutionOfOneValue(args: seq<string>, i: nat, v: real, st: Settings)
    requires i + 1 < |args| && ParseDouble(args[i + 1]) == Ok(v)
    requires !(i + 2 < |args| && !StartsWithDash(args[i + 2]))
    ensures ResolutionFlag(args, i, st) == (st.(targetRes := v, maxRes := v, doResampling := true), 1, None)
  {
    assert (4 / 3) as real * v == v;
    var g := ResolutionFlag(args, i, st).0;
    assert g.targetRes == v && g.maxRes == v && g.doResampling;
    assert g.imgFileType == st.imgFileType && g.compQual == st.compQual;
    assert g.embeddedImageSizeMin == st.embeddedImageSizeMin;
  }

  /** -r with one value: that value is the target, and the maximum equals it, since 4 / 3 is 1. */
  lemma OneResolutionValue(t: string, v: real, st: Settings)
    requires ParseDouble(t) == Ok(v)
    ensures Scanned(["-r", t], 0, Start(st)) ==
      (Start(st.(targetRes := v, maxRes := v, doResampling := true)), None)
  {
    FlagsAreTrimmed();
    ResolutionOfOneValue(["-r", t], 0, v, st);
  }

  /** The value after -r is taken as the target even when it starts with '-'. */
  lemma ResolutionTakesDashedValue(m: string, st: Settings)
    requires |m| > 1 && m[0] == '-' && AllDigits(m[1..])
    ensures Scanned(["-r", m], 0, Start(st)).0.settings.targetRes == -(DigitsValue(m[1..]) as real)
    ensures Scanned(["-r", m], 0, Start(st)).0.settings.maxRes == -(DigitsValue(m[1..]) as real)
  {
    ParseDoubleOfNegatedDigits(m);
    OneResolutionValue(m, -(DigitsValue(m[1..]) as real), st);
  }

  /** -r with two values, the second not starting with '-': target and maximum as given. */
  lemma TwoResolutionValues(t: string, m: string, vt: real, vm: real, st: Settings)
    requires ParseDouble(t) == Ok(vt) && ParseDouble(m) == Ok(vm) && !StartsWithDash(m)
    ensures Scanned(["-r", t, m], 0, Start(st)) ==
      (Start(st.(targetRes := vt, maxRes := vm, doResampling := true)), None)
  {
    FlagsAreTrimmed();
    var args := ["-r", t, m];
    assert args[1] == t && args[2] == m;
    assert ResolutionFlag(args, 0, st) == (st.(targetRes := vt, maxRes := vm, doResampling := true), 2, None);
  }

  /** A flag after a single -r value is read as a flag, not as the maximum. */
  lemma ResolutionThenFlag(t: string, v: real, st: Settings)
    requires ParseDouble(t) == Ok(v)
    ensures Scanned(["-r", t, "-s"], 0, Start(st)) ==
      (Scan(st.(targetRes := v, maxRes := v, doResampling := true), None, None, true, false), None)
  {
    FlagsAreTrimmed();
    var args := ["-r", t, "-s"];
    assert StartsWithDash(args[2]);
    ResolutionOfOneValue(args, 0, v, st);
    var s1 := Start(st.(targetRes := v, maxRes := v, doResampling := true));
    assert Step(args, 0, Start(st)) == (s1, 2, None);
    assert Step(args, 2, s1) == (s1.(saveAs := true), 3, None);
    assert Scanned(args, 2, s1) == Scanned(args, 3, s1.(saveAs := true));
  }

  /** A flag that needs a value but has none is read as a plain token: as the input when first. */
  lemma LoneFlagIsInput(st: Settings)
    ensures Scanned(["-o"], 0, Start(st)) == (Scan(st, Some("-o"), None, false, false), None)
  {
    FlagsAreTrimmed();
  }

  /** No turn after the first sets the input. */
  lemma {:induction false} LaterTurnsKeepInput(args: seq<string>, i: nat, s: Scan)
    requires 1 <= i <= |args|
    ensures Scanned(args, i, s).0.input == s.input
    decreases |args| - i
  {
    if i < |args| {
      var (s1, j, e) := Step(args, i, s);
      if e.None? {
        LaterTurnsKeepInput(args, j, s1);
      }
    }
  }

  /** The input file can only be the first argument, trimmed: a later plain token is ignored. */
  lemma InputIsFirstArgument(args: seq<string>, st: Settings)
    ensures Scanned(args, 0, Start(st)).0.input.Some? ==>
      |args| > 0 && Scanned(args, 0, Start(st)).0.input == Some(Trim(args[0]))
  {
    if |args| > 0 {
      var (s1, j, e) := Step(args, 0, Start(st));
      if e.None? {
        LaterTurnsKeepInput(args, j, s1);
      }
    }
  }

  predicate SettingFlag(token: string) {
    token == "-t" || token == "-q" || token == "-r" || token == "-e"
  }

  /**
   * Without -t, -q, -r or -e on the command line the scan raises nothing and leaves every
   * setting as it was.
   */
  lemma {:induction false} SettingsNeedTheirFlags(args: seq<string>, i: nat, s: Scan)
    requires i <= |args|
    requires forall k :: 0 <= k < |args| ==> !SettingFlag(Trim(args[k]))
    ensures Scanned(args, i, s).0.settings == s.settings && Scanned(args, i, s).1.None?
    decreases |args| - i
  {
    if i < |args| {
      assert !SettingFlag(Trim(args[i]));
      var (s1, j, e) := Step(args, i, s);
      assert s1.settings == s.settings && e.None?;
      SettingsNeedTheirFlags(args, j, s1);
    }
  }
}
