/** BIP-32 derivation paths: parsing and printing, and that they undo each other. */
module DerivationPath {
  import opened Wrappers

  const HARDENED: int := 0x8000_0000
  const UINT32_MAX: int := 0xFFFF_FFFF

  type Uint32 = x: int | 0 <= x <= UINT32_MAX

  /** m/44'/60'/0'/0, to which relative paths are appended. */
  const DEFAULT_ROOT: seq<Uint32> := [HARDENED + 44, HARDENED + 60, HARDENED, 0]

  datatype PathError = EmptyPath | AmbiguousPath | InvalidComponent | OutOfRange

  // ---------------------------------------------------------------------------------
  // Strings
  // ---------------------------------------------------------------------------------

  /** White space as Unicode has it. */
  predicate IsSpace(c: char) {
    c == '\t' || c == '\n' || c == '\U{0B}' || c == '\U{0C}' || c == '\r' || c == ' ' || c == '\U{85}' || c == '\U{A0}'
    || c == '\U{1680}' || '\U{2000}' <= c <= '\U{200A}' || c == '\U{2028}' || c == '\U{2029}' || c == '\U{202F}'
    || c == '\U{205F}' || c == '\U{3000}'
  }

  function TrimLeft(s: string): string {
    if s != "" && IsSpace(s[0]) then TrimLeft(s[1..]) else s
  }

  function TrimRight(s: string): string {
    if s != "" && IsSpace(s[|s| - 1]) then TrimRight(s[..|s| - 1]) else s
  }

  function TrimSpace(s: string): string { TrimRight(TrimLeft(s)) }

  /** The parts with one more character at the end: a slash opens a new part. */
  function Grown(parts: seq<string>, c: char): (grown: seq<string>)
    requires parts != []
    ensures grown != []
  {
    var last := |parts| - 1;
    if c == '/' then parts + [""] else parts[..last] + [parts[last] + [c]]
  }

  /** The parts between slashes; one more than there are slashes. */
  function Split(s: string): (parts: seq<string>)
    ensures parts != []
  {
    if s == "" then [""] else Grown(Split(s[..|s| - 1]), s[|s| - 1])
  }

  function Join(parts: seq<string>): string
    requires parts != []
  {
    if |parts| == 1 then parts[0] else Join(parts[..|parts| - 1]) + "/" + parts[|parts| - 1]
  }

  lemma SplitSnoc(s: string, c: char)
    ensures Split(s + [c]) == Grown(Split(s), c)
  {
    assert (s + [c])[..|s|] == s;
  }

  lemma GrownJoin(parts: seq<string>, c: char)
    requires parts != [] && forall i | 0 <= i < |parts| :: '/' !in parts[i]
    ensures Join(Grown(parts, c)) == Join(parts) + [c]
    ensures forall i | 0 <= i < |Grown(parts, c)| :: '/' !in Grown(parts, c)[i]
  {
    var last := |parts| - 1;
    assert Grown(parts, c)[..|Grown(parts, c)| - 1] == if c == '/' then parts else parts[..last];
    if c == '/' {
      assert Join(parts) + "/" + "" == Join(parts) + [c];
    } else if last > 0 {
      assert Join(parts[..last]) + "/" + (parts[last] + [c]) == Join(parts[..last]) + "/" + parts[last] + [c];
    }
  }

  /** Splitting loses nothing and leaves no slash in any part. */
  lemma {:induction false} SplitIsInverseOfJoin(s: string)
    ensures Join(Split(s)) == s
    ensures forall i | 0 <= i < |Split(s)| :: '/' !in Split(s)[i]
  {
    if s != "" {
      var k := |s| - 1;
      SplitIsInverseOfJoin(s[..k]);
      GrownJoin(Split(s[..k]), s[k]);
      assert s == s[..k] + [s[k]];
    }
  }

  lemma GrownLast(parts: seq<string>, part: string, c: char)
    requires c != '/'
    ensures Grown(parts + [part], c) == parts + [part + [c]]
  {
  }

  lemma {:induction false} SplitAppend(s: string, t: string)
    requires '/' !in t
    ensures Split(s + "/" + t) == Split(s) + [t]
    decreases |t|
  {
    if t == "" {
      SplitSnoc(s, '/');
      assert s + "/" + t == s + ['/'];
    } else {
      var k := |t| - 1;
      SplitAppend(s, t[..k]);
      SplitSnoc(s + "/" + t[..k], t[k]);
      GrownLast(Split(s), t[..k], t[k]);
      assert s + "/" + t == s + "/" + t[..k] + [t[k]];
      assert t[..k] + [t[k]] == t;
    }
  }

  predicate AllSpace(s: string) { forall i | 0 <= i < |s| :: IsSpace(s[i]) }

  lemma {:induction false} TrimLeftCuts(s: string) returns (l: string)
    ensures s == l + TrimLeft(s) && AllSpace(l)
    ensures TrimLeft(s) != "" ==> !IsSpace(TrimLeft(s)[0])
  {
    if s != "" && IsSpace(s[0]) {
      var rest := TrimLeftCuts(s[1..]);
      l := [s[0]] + rest;
    } else {
      l := "";
    }
  }

  lemma {:induction false} TrimRightCuts(s: string) returns (r: string)
    ensures s == TrimRight(s) + r && AllSpace(r)
    ensures TrimRight(s) != "" ==> !IsSpace(TrimRight(s)[|TrimRight(s)| - 1])
  {
    if s != "" && IsSpace(s[|s| - 1]) {
      var rest := TrimRightCuts(s[..|s| - 1]);
      r := rest + [s[|s| - 1]];
    } else {
      r := "";
    }
  }

  /** Trimming cuts off white space at both ends, all of it and nothing else. */
  lemma TrimCutsSpace(s: string) returns (l: string, r: string)
    ensures s == l + TrimSpace(s) + r && AllSpace(l) && AllSpace(r)
    ensures var t := TrimSpace(s); t != "" ==> !IsSpace(t[0]) && !IsSpace(t[|t| - 1])
  {
    l := TrimLeftCuts(s);
    r := TrimRightCuts(TrimLeft(s));
    var t := TrimSpace(s);
    assert t != "" ==> t[0] == TrimLeft(s)[0];
  }

  lemma TrimKeeps(s: string)
    requires s != "" ==> !IsSpace(s[0]) && !IsSpace(s[|s| - 1])
    ensures TrimSpace(s) == s
  {
  }

  // ---------------------------------------------------------------------------------
  // Numbers: a big integer's SetString with base 0
  // ---------------------------------------------------------------------------------

  /** What the scanner saw last: a digit, a separator, or neither. */
  datatype Seen = Digit | Separator | Neither

  datatype Scanner = Scanner(seen: Seen, badSeparator: bool, digits: nat, value: nat, stopped: bool)

  function DigitValue(c: char): nat {
    if '0' <= c <= '9' then c as int - '0' as int
    else if 'a' <= c <= 'z' then c as int - 'a' as int + 10
    else if 'A' <= c <= 'Z' then c as int - 'A' as int + 10
    else 63
  }

  /** One more character; a character that is no digit of the base ends the number. */
  function Feed(base: nat, st: Scanner, c: char): Scanner {
    if st.stopped then st
    else if c == '_' then st.(seen := Separator, badSeparator := st.badSeparator || st.seen != Digit)
    else if DigitValue(c) >= base then st.(stopped := true)
    else Scanner(Digit, st.badSeparator, st.digits + 1, st.value * base + DigitValue(c), false)
  }

  function FeedAll(base: nat, st: Scanner, s: string): Scanner {
    if s == "" then st else Feed(base, FeedAll(base, st, s[..|s| - 1]), s[|s| - 1])
  }

  /** A number must reach the end of the string, have a digit, and have its separators
      between digits or right after a prefix. */
  function Finish(st: Scanner): Option<nat> {
    if st.stopped || st.badSeparator || st.seen == Separator || st.digits == 0 then None else Some(st.value)
  }

  function ScanNat(s: string): Option<nat> {
    if s == "" then None
    else if s[0] != '0' then Finish(FeedAll(10, Scanner(Neither, false, 0, 0, false), s))
    else if |s| == 1 then Some(0)
    else
      var start := Scanner(Digit, false, 0, 0, false);
      if s[1] == 'b' || s[1] == 'B' then Finish(FeedAll(2, start, s[2..]))
      else if s[1] == 'o' || s[1] == 'O' then Finish(FeedAll(8, start, s[2..]))
      else if s[1] == 'x' || s[1] == 'X' then Finish(FeedAll(16, start, s[2..]))
      else Finish(FeedAll(8, start, s[1..]))
  }

  function ScanInt(s: string): Option<int> {
    if s != "" && s[0] == '-' then
      match ScanNat(s[1..])
      case None => None
      case Some(n) => Some(0 - n)
    else if s != "" && s[0] == '+' then ScanNat(s[1..])
    else ScanNat(s)
  }

  lemma Divided(n: nat, base: nat)
    requires 2 <= base
    ensures n / base * base + n % base == n && n % base < base
    ensures n > 0 ==> n / base < n
  {
    var q := n / base;
    assert q * 2 <= q * base;
  }

  function DigitOf(d: nat): char
    requires d < 16
  {
    if d < 10 then (d + '0' as int) as char else (d - 10 + 'a' as int) as char
  }

  /** Digits in any base up to sixteen, without leading zeros. */
  function PrintIn(base: nat, n: nat): (s: string)
    requires 2 <= base <= 16
    ensures s != ""
    decreases n
  {
    if n < base then [DigitOf(n)]
    else
      Divided(n, base);
      PrintIn(base, n / base) + [DigitOf(n % base)]
  }

  function PrintNat(n: nat): string { PrintIn(10, n) }

  /** One more digit, after a digit or at the start. */
  lemma FeedDigit(base: nat, seen: Seen, k: nat, v: nat, d: nat)
    requires d < base <= 16
    ensures Feed(base, Scanner(seen, false, k, v, false), DigitOf(d)) == Scanner(Digit, false, k + 1, v * base + d, false)
  {
    assert DigitValue(DigitOf(d)) == d && DigitOf(d) != '_';
  }

  lemma {:induction false} ScansDigits(base: nat, n: nat, seen: Seen)
    requires 2 <= base <= 16
    ensures FeedAll(base, Scanner(seen, false, 0, 0, false), PrintIn(base, n))
            == Scanner(Digit, false, |PrintIn(base, n)|, n, false)
    decreases n
  {
    var s, start := PrintIn(base, n), Scanner(seen, false, 0, 0, false);
    if n >= base {
      var front := PrintIn(base, n / base);
      Divided(n, base);
      ScansDigits(base, n / base, seen);
      assert s == front + [DigitOf(n % base)] && s[..|s| - 1] == front;
      FeedDigit(base, Digit, |front|, n / base, n % base);
    } else {
      assert s[..0] == "" && FeedAll(base, start, "") == start;
      FeedDigit(base, seen, 0, 0, n);
    }
  }

  lemma {:induction false} PrintedDigits(n: nat)
    ensures forall i | 0 <= i < |PrintNat(n)| :: '0' <= PrintNat(n)[i] <= '9'
    ensures n > 0 ==> PrintNat(n)[0] != '0'
    ensures n == 0 ==> PrintNat(n) == "0"
  {
    if n >= 10 {
      PrintedDigits(n / 10);
      assert PrintNat(n) == PrintNat(n / 10) + [DigitOf(n % 10)];
    }
  }

  /** The prefixed notations: hexadecimal, octal and binary. */
  lemma ScanPrefixed(n: nat)
    ensures ScanInt("0x" + PrintIn(16, n)) == Some(n)
    ensures ScanInt("0o" + PrintIn(8, n)) == Some(n)
    ensures ScanInt("0b" + PrintIn(2, n)) == Some(n)
  {
    var hex, oct, bin := "0x" + PrintIn(16, n), "0o" + PrintIn(8, n), "0b" + PrintIn(2, n);
    assert hex[2..] == PrintIn(16, n) && oct[2..] == PrintIn(8, n) && bin[2..] == PrintIn(2, n);
    ScansDigits(16, n, Digit);
    ScansDigits(8, n, Digit);
    ScansDigits(2, n, Digit);
  }

  /** Scanning what was printed gives the number back. */
  lemma ScanPrinted(n: nat)
    ensures ScanInt(PrintNat(n)) == Some(n)
  {
    PrintedDigits(n);
    ScansDigits(10, n, Neither);
  }

  // ---------------------------------------------------------------------------------
  // Paths
  // ---------------------------------------------------------------------------------

  predicate Quoted(c: string) { c != "" && c[|c| - 1] == '\'' }

  /** A number within what its kind leaves of 32 bits. */
  function InRange(base: int, v: Option<int>): Result<Uint32, PathError>
    requires base == 0 || base == HARDENED
  {
    if v.None? then Failure(InvalidComponent)
    else if v.value < 0 || v.value > UINT32_MAX - base then Failure(OutOfRange)
    else Success(base + v.value)
  }

  function ParseTrimmed(c: string): Result<Uint32, PathError> {
    if Quoted(c) then InRange(HARDENED, ScanInt(TrimSpace(c[..|c| - 1]))) else InRange(0, ScanInt(c))
  }

  /** A component: optional quote for hardened, in any integer notation, spaces ignored. */
  function ParseComponent(raw: string): Result<Uint32, PathError> {
    ParseTrimmed(TrimSpace(raw))
  }

  function ParseAll(parts: seq<string>): Result<seq<Uint32>, PathError> {
    if parts == [] then Success([])
    else
      match ParseAll(parts[..|parts| - 1])
      case Failure(e) => Failure(e)
      case Success(front) =>
        match ParseComponent(parts[|parts| - 1])
        case Failure(e) => Failure(e)
        case Success(v) => Success(front + [v])
  }

  /** The meaning of a path string. */
  function Parse(s: string): Result<seq<Uint32>, PathError> {
    var parts := Split(s);
    var first := TrimSpace(parts[0]);
    if first == "" then Failure(AmbiguousPath)
    else if first == "m" then
      if |parts| == 1 then Failure(EmptyPath) else ParseAll(parts[1..])
    else
      match ParseAll(parts)
      case Failure(e) => Failure(e)
      case Success(p) => Success(DEFAULT_ROOT + p)
  }

  function PrintComponent(v: Uint32): string {
    if v >= HARDENED then PrintNat(v - HARDENED) + "'" else PrintNat(v)
  }

  /** The canonical form. */
  function Print(p: seq<Uint32>): string {
    if p == [] then "m" else Print(p[..|p| - 1]) + "/" + PrintComponent(p[|p| - 1])
  }

  /** A digit is neither space, slash nor quote. */
  lemma DigitIsPlain(c: char)
    requires '0' <= c <= '9'
    ensures !IsSpace(c) && c != '/' && c != '\''
  {
  }

  lemma PrintedIsPlain(n: nat)
    ensures TrimSpace(PrintNat(n)) == PrintNat(n) && !Quoted(PrintNat(n))
    ensures TrimSpace(PrintNat(n) + "'") == PrintNat(n) + "'"
    ensures '/' !in PrintNat(n) && '/' !in PrintNat(n) + "'"
  {
    var digits := PrintNat(n);
    PrintedDigits(n);
    forall i | 0 <= i < |digits| ensures !IsSpace(digits[i]) && digits[i] != '/' && digits[i] != '\'' {
      DigitIsPlain(digits[i]);
    }
    TrimKeeps(digits);
    assert !IsSpace('\'');
    TrimKeeps(digits + "'");
  }

  lemma ParsePlain(n: nat)
    ensures ParseTrimmed(PrintNat(n)) == InRange(0, Some(n))
  {
    PrintedIsPlain(n);
    ScanPrinted(n);
  }

  lemma ParseQuoted(n: nat)
    ensures ParseTrimmed(PrintNat(n) + "'") == InRange(HARDENED, Some(n))
  {
    PrintedIsPlain(n);
    ScanPrinted(n);
    var c := PrintNat(n) + "'";
    assert Quoted(c) && c[..|c| - 1] == PrintNat(n);
  }

  lemma ComponentRoundTrip(v: Uint32)
    ensures ParseComponent(PrintComponent(v)) == Success(v)
    ensures '/' !in PrintComponent(v)
  {
    if v >= HARDENED {
      PrintedIsPlain(v - HARDENED);
      ParseQuoted(v - HARDENED);
    } else {
      PrintedIsPlain(v);
      ParsePlain(v);
    }
  }

  function Components(p: seq<Uint32>): seq<string> {
    if p == [] then [] else Components(p[..|p| - 1]) + [PrintComponent(p[|p| - 1])]
  }

  lemma {:induction false} SplitPrinted(p: seq<Uint32>)
    ensures Split(Print(p)) == ["m"] + Components(p)
  {
    if p == [] {
      assert "m"[..0] == "";
      assert Split("") == [""];
      assert "" + ['m'] == "m";
      assert Split("m") == ["m"];
    } else {
      var k := |p| - 1;
      SplitPrinted(p[..k]);
      ComponentRoundTrip(p[k]);
      SplitAppend(Print(p[..k]), PrintComponent(p[k]));
    }
  }

  lemma ParseAppend(parts: seq<string>, part: string, front: seq<Uint32>, v: Uint32)
    requires ParseAll(parts) == Success(front) && ParseComponent(part) == Success(v)
    ensures ParseAll(parts + [part]) == Success(front + [v])
  {
    assert (parts + [part])[..|parts|] == parts;
  }

  lemma {:induction false} ParseComponents(p: seq<Uint32>)
    ensures ParseAll(Components(p)) == Success(p)
  {
    if p != [] {
      var k := |p| - 1;
      ParseComponents(p[..k]);
      ComponentRoundTrip(p[k]);
      ParseAppend(Components(p[..k]), PrintComponent(p[k]), p[..k], p[k]);
      assert p[..k] + [p[k]] == p;
    }
  }

  /** Parsing the printed form of a non-empty path gives the path; the empty path prints
      as a string that is refused. */
  lemma RoundTrip(p: seq<Uint32>)
    ensures p != [] ==> Parse(Print(p)) == Success(p)
    ensures p == [] ==> Parse(Print(p)) == Failure(EmptyPath)
  {
    SplitPrinted(p);
    TrimKeeps("m");
    assert (["m"] + Components(p))[1..] == Components(p);
    ParseComponents(p);
  }

  lemma {:induction false} ParseAllLength(parts: seq<string>)
    requires ParseAll(parts).Success?
    ensures |ParseAll(parts).value| == |parts|
  {
    if parts != [] {
      ParseAllLength(parts[..|parts| - 1]);
    }
  }

  /** Every accepted string means the same as its canonical form. */
  lemma ParsePrintParse(s: string)
    requires Parse(s).Success?
    ensures Parse(s).value != []
    ensures Parse(Print(Parse(s).value)) == Parse(s)
  {
    var parts := Split(s);
    if TrimSpace(parts[0]) == "m" {
      ParseAllLength(parts[1..]);
    }
    RoundTrip(Parse(s).value);
  }

  /** Hardened indices: a quoted decimal below 2^31 and a plain one of 2^31 or more name the
      same upper half of the index space; everything else in range is a plain index. */
  lemma HardenedComponents(n: nat)
    ensures ParseComponent(PrintNat(n)) == (if n <= UINT32_MAX then Success(n) else Failure(OutOfRange))
    ensures ParseComponent(PrintNat(n) + "'") == (if n < HARDENED then Success(HARDENED + n) else Failure(OutOfRange))
  {
    PrintedIsPlain(n);
    ParsePlain(n);
    ParseQuoted(n);
  }

  /** A relative path means the absolute one under the default root. */
  lemma RelativePaths(s: string)
    requires TrimSpace(Split(s)[0]) != "" && TrimSpace(Split(s)[0]) != "m"
    ensures Parse(s) == match ParseAll(Split(s)) case Failure(e) => Failure(e) case Success(p) => Parse(Print(DEFAULT_ROOT + p))
  {
    if ParseAll(Split(s)).Success? {
      RoundTrip(DEFAULT_ROOT + ParseAll(Split(s)).value);
    }
  }

  // ---------------------------------------------------------------------------------
  // The loops
  // ---------------------------------------------------------------------------------

  /** The body of the parser's loop. */
  method ReadComponent(raw: string) returns (r: Result<Uint32, PathError>)
    ensures r == ParseComponent(raw)
  {
    var component := TrimSpace(raw);
    var value := 0;
    if |component| > 0 && component[|component| - 1] == '\'' {
      value := HARDENED;
      component := TrimSpace(component[..|component| - 1]);
    }
    var bigval := ScanInt(component);
    if bigval.None? {
      return Failure(InvalidComponent);
    }
    var max := UINT32_MAX - value;
    if bigval.value < 0 || bigval.value > max {
      return Failure(OutOfRange);
    }
    value := value + bigval.value;
    return Success(value);
  }

  method ReadComponents(components: seq<string>, root: seq<Uint32>) returns (r: Result<seq<Uint32>, PathError>)
    ensures match ParseAll(components)
            case Failure(e) => r == Failure(e)
            case Success(p) => r == Success(root + p)
  {
    var result := root;
    for i := 0 to |components|
      invariant ParseAll(components[..i]).Success? && result == root + ParseAll(components[..i]).value
    {
      assert components[..i + 1][..i] == components[..i];
      ParseAllStops(components, i + 1);
      var v := ReadComponent(components[i]);
      if v.Failure? {
        return Failure(v.error);
      }
      result := result + [v.value];
    }
    assert components[..|components|] == components;
    return Success(result);
  }

  /** ParseDerivationPath. */
  method ParseDerivationPath(path: string) returns (r: Result<seq<Uint32>, PathError>)
    ensures r == Parse(path)
  {
    var result: seq<Uint32> := [];
    var components := Split(path);
    var first := TrimSpace(components[0]);
    if first == "" {
      return Failure(AmbiguousPath);
    } else if first == "m" {
      components := components[1..];
    } else {
      result := result + DEFAULT_ROOT;
    }
    if |components| == 0 {
      return Failure(EmptyPath);
    }
    r := ReadComponents(components, result);
    if ParseAll(components).Success? {
      ghost var p := ParseAll(components).value;
      assert [] + p == p && [] + DEFAULT_ROOT + p == DEFAULT_ROOT + p;
    }
  }

  /** The first bad component decides. */
  lemma {:induction false} ParseAllStops(parts: seq<string>, i: nat)
    requires i <= |parts|
    ensures ParseAll(parts[..i]).Failure? ==> ParseAll(parts) == ParseAll(parts[..i])
    decreases |parts|
  {
    if i < |parts| {
      ParseAllStops(parts[..|parts| - 1], i);
      assert parts[..|parts| - 1][..i] == parts[..i];
    } else {
      assert parts[..i] == parts;
    }
  }

  /** DerivationPath.String. */
  method ToString(path: seq<Uint32>) returns (s: string)
    ensures s == Print(path)
  {
    s := "m";
    for i := 0 to |path|
      invariant s == Print(path[..i])
    {
      assert path[..i + 1][..i] == path[..i];
      var component := path[i];
      var hardened := false;
      if component >= HARDENED {
        component := component - HARDENED;
        hardened := true;
      }
      ghost var before := s;
      s := s + "/" + PrintNat(component);
      if hardened {
        s := s + "'";
      }
      assert s == before + "/" + PrintComponent(path[i]);
    }
    assert path[..|path|] == path;
  }
}
