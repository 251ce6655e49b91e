/** Typed commands: argv is parsed into a normal form and lowered back. The
    text of floating-point numbers is a parameter. */
module Commands {
  import opened Bytes

  type Argv = seq<bytes>

  // ---- Keywords ----------------------------------------------------------

  /** The bytes of an ASCII string. */
  function Ascii(s: string): bytes {
    seq(|s|, i requires 0 <= i < |s| => (s[i] as int % 0x80) as byte)
  }

  function Upper(b: byte): byte {
    if 0x61 <= b <= 0x7A then b - 32 else b
  }

  function UpperAll(s: bytes): bytes {
    seq(|s|, i requires 0 <= i < |s| => Upper(s[i]))
  }

  /** Equal up to ASCII case. Keywords are upper case. */
  predicate Same(input: bytes, keyword: string) {
    UpperAll(input) == Ascii(keyword)
  }

  /** `eq`: byte by byte. */
  method Eq(input: bytes, keyword: string) returns (same: bool)
    requires UpperAll(Ascii(keyword)) == Ascii(keyword)
    ensures same <==> Same(input, keyword)
  {
    var expected := Ascii(keyword);
    if input == expected {
      return true;
    }
    if |input| != |expected| {
      return false;
    }
    var i := 0;
    while i < |input|
      invariant i <= |input| && forall j :: 0 <= j < i ==> Upper(input[j]) == expected[j]
    {
      if Upper(input[i]) != expected[i] {
        assert UpperAll(input)[i] != expected[i];
        return false;
      }
      i := i + 1;
    }
    return true;
  }

  /** Spelling a recognized token canonically changes nothing about what it is
      recognized as. */
  lemma SameAsOne(input: bytes, keyword: string, other: string)
    requires Same(input, keyword)
    ensures Same(input, other) <==> Same(Ascii(keyword), other)
  {
    var u := UpperAll(input);
    assert UpperAll(u) == u;
  }

  // ---- Decimal numbers ---------------------------------------------------

  function Digit(d: nat): byte
    requires d < 10
  {
    (0x30 + d) as byte
  }

  predicate IsDigit(b: byte) {
    0x30 <= b <= 0x39
  }

  function Decimal(n: nat): (s: bytes)
    ensures s != [] && forall i :: 0 <= i < |s| ==> IsDigit(s[i])
  {
    if n < 10 then [Digit(n)] else Decimal(n / 10) + [Digit(n % 10)]
  }

  function Value(s: bytes): nat
    requires forall i :: 0 <= i < |s| ==> IsDigit(s[i])
  {
    if s == [] then 0
    else
      assert IsDigit(s[|s| - 1]);
      10 * Value(s[..|s| - 1]) + (s[|s| - 1] as nat - 0x30)
  }

  lemma {:induction false} DecimalValue(n: nat)
    ensures Value(Decimal(n)) == n
  {
    if n < 10 {
      assert [Digit(n)][..0] == [];
    } else {
      DecimalValue(n / 10);
      assert (Decimal(n / 10) + [Digit(n % 10)])[..|Decimal(n / 10)|] == Decimal(n / 10);
    }
  }

  /** The range of an integer type. */
  datatype Width = Width(lo: int, hi: int)

  const I64 := Width(-0x8000_0000_0000_0000, 0x7FFF_FFFF_FFFF_FFFF)
  const U64 := Width(0, 0xFFFF_FFFF_FFFF_FFFF)
  const U128 := Width(0, 0xFFFF_FFFF_FFFF_FFFF_FFFF_FFFF_FFFF_FFFF)

  function ShowInt(n: int): bytes {
    if n < 0 then [0x2D] + Decimal(-n) else Decimal(n)
  }

  /** A sign (minus only for signed types), at least one digit, within range. */
  function ReadInt(s: bytes, w: Width): Option<int> {
    if s == [] then None
    else
      var signed := s[0] == 0x2B || (s[0] == 0x2D && w.lo < 0);
      var digits := if signed then s[1..] else s;
      if digits == [] || exists i :: 0 <= i < |digits| && !IsDigit(digits[i]) then None
      else
        var n: int := if s[0] == 0x2D then 0 - Value(digits) else Value(digits);
        if w.lo <= n <= w.hi then Some(n) else None
  }

  lemma IntRoundTrip(n: int, w: Width)
    requires w.lo <= n <= w.hi
    ensures ReadInt(ShowInt(n), w) == Some(n)
  {
    hide Decimal, Value;
    var d := Decimal(if n < 0 then -n else n);
    DecimalValue(if n < 0 then -n else n);
    assert IsDigit(d[0]);
    if n < 0 {
      assert ([0x2D] + d)[1..] == d;
    }
  }

  lemma ReadInRange(s: bytes, w: Width)
    ensures ReadInt(s, w).Some? ==> w.lo <= ReadInt(s, w).value <= w.hi
  {
  }

  // ---- Commands ----------------------------------------------------------

  /** How floating-point numbers are written and read. */
  datatype Floats<!F> = Floats(show: F -> bytes, read: bytes -> Option<F>)

  ghost predicate FloatsOk<F(!new)>(fs: Floats<F>) {
    forall f: F :: fs.read(fs.show(f)) == Some(f)
  }

  datatype Kind = Bytes | Int(width: Width) | Float

  datatype Arg<F> = Raw(raw: bytes) | Number(n: int) | Real(f: F)

  /** A command name and its arguments: `head` once, then `unit` at least once
      if there is one. */
  datatype Form = Form(name: string, head: seq<Kind>, unit: seq<Kind>)

  datatype SetOption = Ex(seconds: nat) | Px(milliseconds: nat) | Nx | Xx | KeepTtl

  datatype Unit = M | Km | Mi | Ft

  datatype Command<F> =
    | Plain(form: Form, args: seq<Arg<F>>)
    | Set(key: bytes, value: bytes, options: seq<SetOption>)
    | ZRange(key: bytes, start: int, stop: int, withScores: bool)
    | GeoDist(key: bytes, a: bytes, b: bytes, unit: Unit)
    | XAdd(key: bytes, id: bytes, fields: Argv)
    | Other(name: bytes, rest: Argv)

  function Keys(name: string, head: nat): Form {
    Form(name, seq(head, _ => Bytes), [])
  }

  function KeysThen(name: string, head: nat, unit: seq<Kind>): Form {
    Form(name, seq(head, _ => Bytes), unit)
  }

  /** Every command with a typed form, but for the four with options. */
  function Forms(): seq<Form> {
    var I := Int(I64);
    [ Keys("PING", 0), Keys("PUBLISH", 2), Keys("DBSIZE", 0), Keys("GET", 1), Keys("GETSET", 2), Keys("SETNX", 2),
      Form("SETEX", [Bytes, Int(U64), Bytes], []), Form("PSETEX", [Bytes, Int(U128), Bytes], []),
      KeysThen("MGET", 0, [Bytes]), KeysThen("MSET", 0, [Bytes, Bytes]), Keys("APPEND", 2), Keys("STRLEN", 1),
      Keys("INCR", 1), Keys("DECR", 1), Form("INCRBY", [Bytes, I], []), Form("DECRBY", [Bytes, I], []),
      KeysThen("EXISTS", 0, [Bytes]), Form("EXPIRE", [Bytes, Int(U64)], []), Keys("TTL", 1), Keys("PTTL", 1),
      Keys("PERSIST", 1), Keys("TYPE", 1), KeysThen("LPUSH", 1, [Bytes]), KeysThen("RPUSH", 1, [Bytes]), Keys("LPOP", 1),
      Keys("RPOP", 1), Keys("LLEN", 1), Form("LINDEX", [Bytes, I], []), Form("LRANGE", [Bytes, I, I], []),
      Keys("HSET", 3), Form("HINCRBY", [Bytes, Bytes, I], []), Keys("HGET", 2), KeysThen("HMGET", 1, [Bytes]),
      Keys("HEXISTS", 2), Keys("HLEN", 1), Keys("HGETALL", 1), KeysThen("SADD", 1, [Bytes]), Keys("SPOP", 1),
      Keys("SISMEMBER", 2), Keys("SCARD", 1), Keys("SMEMBERS", 1), KeysThen("SUNION", 0, [Bytes]),
      KeysThen("SINTER", 0, [Bytes]), KeysThen("SDIFF", 0, [Bytes]), Form("ZADD", [Bytes, Float, Bytes], []),
      Keys("ZSCORE", 2), Keys("ZCARD", 1), Keys("ZCOUNT", 3), Form("ZINCRBY", [Bytes, Float, Bytes], []),
      KeysThen("GEOADD", 1, [Float, Float, Bytes]), KeysThen("GEOPOS", 1, [Bytes]) ]
  }

  // ---- Arguments ---------------------------------------------------------

  /** The number of arguments fits the form. */
  predicate Arity(f: Form, n: nat) {
    if f.unit == [] then n == |f.head|
    else n > |f.head| && (n - |f.head|) % |f.unit| == 0
  }

  function KindAt(f: Form, i: nat): Kind {
    if i < |f.head| then f.head[i]
    else if f.unit == [] then Bytes
    else f.unit[(i - |f.head|) % |f.unit|]
  }

  function ReadArg<F>(fs: Floats<F>, k: Kind, s: bytes): Option<Arg<F>> {
    match k
    case Bytes => Some(Raw(s))
    case Int(w) => (match ReadInt(s, w) case Some(n) => Some(Number(n)) case None => None)
    case Float => (match fs.read(s) case Some(f) => Some(Real(f)) case None => None)
  }

  function ShowArg<F>(fs: Floats<F>, a: Arg<F>): bytes {
    match a
    case Raw(s) => s
    case Number(n) => ShowInt(n)
    case Real(f) => fs.show(f)
  }

  /** The arguments from position `i` on. */
  function ReadArgs<F>(fs: Floats<F>, f: Form, i: nat, args: Argv): Option<seq<Arg<F>>>
    decreases |args|
  {
    if args == [] then Some([])
    else match ReadArg(fs, KindAt(f, i), args[0])
      case None => None
      case Some(a) =>
        match ReadArgs(fs, f, i + 1, args[1..])
        case None => None
        case Some(more) => Some([a] + more)
  }

  function ShowArgs<F>(fs: Floats<F>, args: seq<Arg<F>>): Argv {
    seq(|args|, i requires 0 <= i < |args| => ShowArg(fs, args[i]))
  }

  lemma ArgRoundTrip<F(!new)>(fs: Floats<F>, k: Kind, s: bytes)
    requires FloatsOk(fs) && ReadArg(fs, k, s).Some?
    ensures ReadArg(fs, k, ShowArg(fs, ReadArg(fs, k, s).value)) == ReadArg(fs, k, s)
    ensures k.Bytes? ==> ShowArg(fs, ReadArg(fs, k, s).value) == s
  {
    hide ReadInt, ShowInt;
    if k.Int? {
      ReadInRange(s, k.width);
      IntRoundTrip(ReadInt(s, k.width).value, k.width);
    }
  }

  lemma {:induction false} ArgsRoundTrip<F(!new)>(fs: Floats<F>, f: Form, i: nat, args: Argv)
    requires FloatsOk(fs) && ReadArgs(fs, f, i, args).Some?
    ensures var xs := ReadArgs(fs, f, i, args).value;
            && |xs| == |args| && ReadArgs(fs, f, i, ShowArgs(fs, xs)) == Some(xs)
            && forall j | 0 <= j < |args| && KindAt(f, i + j).Bytes? :: ShowArgs(fs, xs)[j] == args[j]
    decreases |args|
  {
    hide ReadArg, ShowArg, KindAt, FloatsOk;
    if args != [] {
      ArgRoundTrip(fs, KindAt(f, i), args[0]);
      ArgsRoundTrip(fs, f, i + 1, args[1..]);
      var xs, more := ReadArgs(fs, f, i, args).value, ReadArgs(fs, f, i + 1, args[1..]).value;
      assert xs[1..] == more;
      assert ShowArgs(fs, xs)[1..] == ShowArgs(fs, more);
      forall j | 0 <= j < |args| && KindAt(f, i + j).Bytes?
        ensures ShowArgs(fs, xs)[j] == args[j]
      {
        if j > 0 {
          assert KindAt(f, i + 1 + (j - 1)).Bytes?;
          assert ShowArgs(fs, more)[j - 1] == args[1..][j - 1];
        }
      }
    }
  }

  // ---- SET options -------------------------------------------------------

  function ReadOption(args: Argv): Option<(SetOption, nat)>
    requires args != []
  {
    if Same(args[0], "EX") && |args| > 1 then
      match ReadInt(args[1], U64)
      case Some(n) => Some((Ex(n), 2))
      case None => None
    else if Same(args[0], "PX") && |args| > 1 then
      match ReadInt(args[1], U128)
      case Some(n) => Some((Px(n), 2))
      case None => None
    else if Same(args[0], "NX") then Some((Nx, 1))
    else if Same(args[0], "XX") then Some((Xx, 1))
    else if Same(args[0], "KEEPTTL") then Some((KeepTtl, 1))
    else None
  }

  function ReadOptions(args: Argv): Option<seq<SetOption>> {
    if args == [] then Some([])
    else match ReadOption(args)
      case None => None
      case Some((o, n)) =>
        if n > |args| then None
        else match ReadOptions(args[n..])
          case None => None
          case Some(more) => Some([o] + more)
  }

  function ShowOption(o: SetOption): Argv {
    match o
    case Ex(n) => [Ascii("EX"), ShowInt(n)]
    case Px(n) => [Ascii("PX"), ShowInt(n)]
    case Nx => [Ascii("NX")]
    case Xx => [Ascii("XX")]
    case KeepTtl => [Ascii("KEEPTTL")]
  }

  function ShowOptions(os: seq<SetOption>): Argv {
    if os == [] then [] else ShowOption(os[0]) + ShowOptions(os[1..])
  }

  predicate OptionOk(o: SetOption) {
    match o
    case Ex(n) => n <= U64.hi
    case Px(n) => n <= U128.hi
    case _ => true
  }

  predicate OptionsOk(os: seq<SetOption>) {
    forall i :: 0 <= i < |os| ==> OptionOk(os[i])
  }

  lemma {:induction false} OptionsRead(args: Argv)
    ensures ReadOptions(args).Some? ==> OptionsOk(ReadOptions(args).value)
  {
    hide ReadInt, Same;
    if args != [] {
      var first := ReadOption(args);
      if first.Some? && first.value.1 <= |args| {
        if |args| > 1 {
          ReadInRange(args[1], U64);
          ReadInRange(args[1], U128);
        }
        OptionsRead(args[first.value.1..]);
      }
    }
  }

  /** The option keywords are different from each other. */
  lemma OptionKeywords()
    ensures Same(Ascii("EX"), "EX") && Same(Ascii("PX"), "PX") && !Same(Ascii("PX"), "EX")
    ensures Same(Ascii("NX"), "NX") && !Same(Ascii("NX"), "EX") && !Same(Ascii("NX"), "PX")
    ensures Same(Ascii("XX"), "XX") && !Same(Ascii("XX"), "EX") && !Same(Ascii("XX"), "PX") && !Same(Ascii("XX"), "NX")
    ensures Same(Ascii("KEEPTTL"), "KEEPTTL") && !Same(Ascii("KEEPTTL"), "EX") && !Same(Ascii("KEEPTTL"), "PX")
    ensures !Same(Ascii("KEEPTTL"), "NX") && !Same(Ascii("KEEPTTL"), "XX")
  {
    assert UpperAll(Ascii("EX")) == Ascii("EX") && Ascii("EX")[0] == 0x45;
    assert UpperAll(Ascii("PX")) == Ascii("PX") && Ascii("PX")[0] == 0x50;
    assert UpperAll(Ascii("NX")) == Ascii("NX") && Ascii("NX")[0] == 0x4E;
    assert UpperAll(Ascii("XX")) == Ascii("XX") && Ascii("XX")[0] == 0x58;
    assert UpperAll(Ascii("KEEPTTL")) == Ascii("KEEPTTL") && |Ascii("KEEPTTL")| == 7;
  }

  lemma OptionRoundTrip(o: SetOption, rest: Argv)
    requires OptionOk(o)
    ensures ReadOption(ShowOption(o) + rest) == Some((o, |ShowOption(o)|))
  {
    hide ReadInt, ShowInt, Same;
    OptionKeywords();
    match o {
      case Ex(n) => IntRoundTrip(n, U64);
      case Px(n) => IntRoundTrip(n, U128);
      case _ =>
    }
  }

  lemma {:induction false} OptionsRoundTrip(os: seq<SetOption>)
    requires OptionsOk(os)
    ensures ReadOptions(ShowOptions(os)) == Some(os)
  {
    hide ReadOption;
    if os != [] {
      var rest := ShowOptions(os[1..]);
      OptionRoundTrip(os[0], rest);
      assert (ShowOption(os[0]) + rest)[|ShowOption(os[0])|..] == rest;
      OptionsRoundTrip(os[1..]);
      assert ShowOption(os[0]) + rest != [];
      assert os == [os[0]] + os[1..];
    }
  }

  /** `parse_set_options`: one index over the arguments. */
  method ParseSetOptions(args: Argv) returns (r: Option<seq<SetOption>>)
    ensures r == ReadOptions(args)
  {
    hide ReadInt, Same;
    var options, i := [], 0;
    Before(ReadOptions(args));
    while i < |args|
      invariant i <= |args| && ReadOptions(args) == Prepend(options, ReadOptions(args[i..]))
    {
      var o: SetOption, step := Nx, 1;
      ghost var tail := args[i..];
      assert |tail| > 1 ==> tail[1] == args[i + 1];
      if Same(args[i], "EX") && i + 1 < |args| {
        var n := ReadInt(args[i + 1], U64);
        if n.None? {
          return None;
        }
        ReadInRange(args[i + 1], U64);
        o, step := Ex(n.value), 2;
      } else if Same(args[i], "PX") && i + 1 < |args| {
        var n := ReadInt(args[i + 1], U128);
        if n.None? {
          return None;
        }
        ReadInRange(args[i + 1], U128);
        o, step := Px(n.value), 2;
      } else if Same(args[i], "NX") {
        o := Nx;
      } else if Same(args[i], "XX") {
        o := Xx;
      } else if Same(args[i], "KEEPTTL") {
        o := KeepTtl;
      } else {
        return None;
      }
      assert tail[step..] == args[i + step..];
      PrependMore(options, o, ReadOptions(args[i + step..]));
      options, i := options + [o], i + step;
    }
    assert options + [] == options;
    return Some(options);
  }

  function Prepend(os: seq<SetOption>, r: Option<seq<SetOption>>): Option<seq<SetOption>> {
    if r.None? then None else Some(os + r.value)
  }

  lemma Before(r: Option<seq<SetOption>>)
    ensures Prepend([], r) == r
  {
    if r.Some? {
      assert [] + r.value == r.value;
    }
  }

  lemma PrependMore(os: seq<SetOption>, o: SetOption, r: Option<seq<SetOption>>)
    ensures Prepend(os, Prepend([o], r)) == Prepend(os + [o], r)
  {
    if r.Some? {
      assert os + ([o] + r.value) == os + [o] + r.value;
    }
  }

  // ---- Preparing and lowering --------------------------------------------

  datatype Prepared<F> = Rejected | Accepted(command: Command<F>)

  predicate IsStreamOption(s: bytes) {
    Same(s, "NOMKSTREAM") || Same(s, "MAXLEN") || Same(s, "MINID")
  }

  /** The first form with this name and number of arguments. */
  function FindForm(forms: seq<Form>, name: bytes, n: nat): Option<Form> {
    if forms == [] then None
    else if Same(name, forms[0].name) && Arity(forms[0], n) then Some(forms[0])
    else FindForm(forms[1..], name, n)
  }

  function ReadUnit(s: bytes): Option<Unit> {
    if Same(s, "M") then Some(M)
    else if Same(s, "KM") then Some(Km)
    else if Same(s, "MI") then Some(Mi)
    else if Same(s, "FT") then Some(Ft)
    else None
  }

  /** Units are written in lower case. */
  function ShowUnit(u: Unit): bytes {
    match u
    case M => Ascii("m")
    case Km => Ascii("km")
    case Mi => Ascii("mi")
    case Ft => Ascii("ft")
  }

  function PrepareZRange<F>(argv: Argv): Prepared<F>
    requires 4 <= |argv| <= 5
  {
    if |argv| == 5 && !Same(argv[4], "WITHSCORES") then Accepted(Other(argv[0], argv[1..]))
    else match (ReadInt(argv[2], I64), ReadInt(argv[3], I64))
      case (Some(start), Some(stop)) => Accepted(ZRange(argv[1], start, stop, |argv| == 5))
      case _ => Rejected
  }

  function PrepareGeoDist<F>(argv: Argv): Prepared<F>
    requires 4 <= |argv| <= 5
  {
    if |argv| == 4 then Accepted(GeoDist(argv[1], argv[2], argv[3], M))
    else match ReadUnit(argv[4])
      case Some(u) => Accepted(GeoDist(argv[1], argv[2], argv[3], u))
      case None => Accepted(Other(argv[0], argv[1..]))
  }

  function PreparePlain<F>(fs: Floats<F>, argv: Argv): Prepared<F>
    requires argv != []
  {
    match FindForm(Forms(), argv[0], |argv| - 1)
    case None => Accepted(Other(argv[0], argv[1..]))
    case Some(f) =>
      match ReadArgs(fs, f, 0, argv[1..])
      case None => Rejected
      case Some(args) => Accepted(Plain(f, args))
  }

  /** `prepare_owned_argv`. */
  function Prepare<F>(fs: Floats<F>, argv: Argv): Prepared<F> {
    if argv == [] || argv[0] == [] then Rejected
    else if Same(argv[0], "SET") && |argv| >= 3 then
      match ReadOptions(argv[3..])
      case Some(options) => Accepted(Set(argv[1], argv[2], options))
      case None => Accepted(Other(argv[0], argv[1..]))
    else if Same(argv[0], "ZRANGE") && 4 <= |argv| <= 5 then PrepareZRange(argv)
    else if Same(argv[0], "GEODIST") && 4 <= |argv| <= 5 then PrepareGeoDist(argv)
    else if Same(argv[0], "XADD") && |argv| >= 5 && |argv| % 2 == 1 then
      if IsStreamOption(argv[2]) then Accepted(Other(argv[0], argv[1..]))
      else Accepted(XAdd(argv[1], argv[2], argv[3..]))
    else PreparePlain(fs, argv)
  }

  /** `write_argv`. */
  function Lower<F>(fs: Floats<F>, c: Command<F>): Argv {
    match c
    case Plain(f, args) => [Ascii(f.name)] + ShowArgs(fs, args)
    case Set(key, value, options) => [Ascii("SET"), key, value] + ShowOptions(options)
    case ZRange(key, start, stop, withScores) =>
      [Ascii("ZRANGE"), key, ShowInt(start), ShowInt(stop)] + if withScores then [Ascii("WITHSCORES")] else []
    case GeoDist(key, a, b, unit) => [Ascii("GEODIST"), key, a, b, ShowUnit(unit)]
    case XAdd(key, id, fields) => [Ascii("XADD"), key, id] + fields
    case Other(name, rest) => [name] + rest
  }

  // ---- The normal form ---------------------------------------------------

  lemma UnitRoundTrip(u: Unit)
    ensures ReadUnit(ShowUnit(u)) == Some(u)
  {
    assert UpperAll(Ascii("m")) == Ascii("M");
    assert UpperAll(Ascii("km")) == Ascii("KM") && Ascii("KM")[0] == 0x4B;
    assert UpperAll(Ascii("mi")) == Ascii("MI") && Ascii("MI")[0] == 0x4D;
    assert UpperAll(Ascii("ft")) == Ascii("FT") && Ascii("FT")[0] == 0x46;
    assert |Ascii("M")| == 1;
  }

  lemma {:induction false} SameForm(forms: seq<Form>, name: bytes, keyword: string, n: nat)
    requires Same(name, keyword)
    ensures FindForm(forms, Ascii(keyword), n) == FindForm(forms, name, n)
  {
    hide Same, Arity;
    if forms != [] {
      SameAsOne(name, keyword, forms[0].name);
      SameForm(forms[1..], name, keyword, n);
    }
  }

  lemma {:induction false} FoundForm(forms: seq<Form>, name: bytes, n: nat)
    requires FindForm(forms, name, n).Some?
    ensures Same(name, FindForm(forms, name, n).value.name)
  {
    hide Same, Arity;
    if !(Same(name, forms[0].name) && Arity(forms[0], n)) {
      FoundForm(forms[1..], name, n);
    }
  }

  lemma PlainNormal<F(!new)>(fs: Floats<F>, argv: Argv)
    requires FloatsOk(fs) && argv != [] && PreparePlain(fs, argv).Accepted? && PreparePlain(fs, argv).command.Plain?
    ensures var c := PreparePlain(fs, argv).command;
            var again := Lower(fs, c);
            PreparePlain(fs, again) == Accepted(c) && |again| == |argv| && Same(argv[0], c.form.name)
  {
    hide Forms, Same, ReadArgs, KindAt, ShowArg, FloatsOk, Ascii, Arity;
    var c := PreparePlain(fs, argv).command;
    FoundForm(Forms(), argv[0], |argv| - 1);
    ArgsRoundTrip(fs, c.form, 0, argv[1..]);
    SameForm(Forms(), argv[0], c.form.name, |argv| - 1);
    assert Lower(fs, c)[1..] == ShowArgs(fs, c.args);
  }

  lemma CanonicalName(name: bytes, keyword: string)
    requires Same(name, keyword)
    ensures Ascii(keyword) == [] <==> name == []
  {
  }

  lemma SpecialNames()
    ensures Same(Ascii("SET"), "SET") && Same(Ascii("ZRANGE"), "ZRANGE") && !Same(Ascii("ZRANGE"), "SET")
    ensures Same(Ascii("GEODIST"), "GEODIST") && !Same(Ascii("GEODIST"), "SET") && !Same(Ascii("GEODIST"), "ZRANGE")
    ensures Same(Ascii("XADD"), "XADD") && !Same(Ascii("XADD"), "SET") && !Same(Ascii("XADD"), "ZRANGE")
    ensures !Same(Ascii("XADD"), "GEODIST") && Same(Ascii("WITHSCORES"), "WITHSCORES")
    ensures Ascii("SET") != [] && Ascii("ZRANGE") != [] && Ascii("GEODIST") != [] && Ascii("XADD") != []
  {
    assert UpperAll(Ascii("SET")) == Ascii("SET") && |Ascii("SET")| == 3;
    assert UpperAll(Ascii("XADD")) == Ascii("XADD") && |Ascii("XADD")| == 4;
    assert UpperAll(Ascii("ZRANGE")) == Ascii("ZRANGE") && |Ascii("ZRANGE")| == 6;
    assert UpperAll(Ascii("GEODIST")) == Ascii("GEODIST") && |Ascii("GEODIST")| == 7;
    assert UpperAll(Ascii("WITHSCORES")) == Ascii("WITHSCORES");
  }

  lemma OtherNormal<F(!new)>(fs: Floats<F>, argv: Argv)
    requires Prepare(fs, argv).Accepted? && Prepare(fs, argv).command.Other?
    ensures Lower(fs, Prepare(fs, argv).command) == argv
  {
    hide Forms, Same, ReadOptions, ReadInt, ReadUnit, IsStreamOption, ReadArgs, FindForm;
    assert [argv[0]] + argv[1..] == argv;
  }

  lemma SetNormal<F(!new)>(fs: Floats<F>, argv: Argv)
    requires Prepare(fs, argv).Accepted? && Prepare(fs, argv).command.Set?
    ensures Prepare(fs, Lower(fs, Prepare(fs, argv).command)) == Prepare(fs, argv)
  {
    hide Forms, Same, ReadOptions, ReadInt, ReadUnit, IsStreamOption, ReadArgs, FindForm, Ascii, ShowOptions;
    var c := Prepare(fs, argv).command;
    SpecialNames();
    OptionsRead(argv[3..]);
    OptionsRoundTrip(c.options);
    assert Lower(fs, c)[3..] == ShowOptions(c.options);
  }

  lemma ZRangeNormal<F(!new)>(fs: Floats<F>, argv: Argv)
    requires Prepare(fs, argv).Accepted? && Prepare(fs, argv).command.ZRange?
    ensures Prepare(fs, Lower(fs, Prepare(fs, argv).command)) == Prepare(fs, argv)
  {
    hide Forms, Same, ReadOptions, ReadInt, ShowInt, ReadUnit, IsStreamOption, ReadArgs, FindForm, Ascii;
    var c := Prepare(fs, argv).command;
    SpecialNames();
    ReadInRange(argv[2], I64);
    ReadInRange(argv[3], I64);
    IntRoundTrip(c.start, I64);
    IntRoundTrip(c.stop, I64);
  }

  lemma GeoDistNormal<F(!new)>(fs: Floats<F>, argv: Argv)
    requires Prepare(fs, argv).Accepted? && Prepare(fs, argv).command.GeoDist?
    ensures Prepare(fs, Lower(fs, Prepare(fs, argv).command)) == Prepare(fs, argv)
  {
    hide Forms, Same, ReadOptions, ReadInt, ReadUnit, ShowUnit, IsStreamOption, ReadArgs, FindForm, Ascii;
    SpecialNames();
    UnitRoundTrip(Prepare(fs, argv).command.unit);
  }

  lemma XAddNormal<F(!new)>(fs: Floats<F>, argv: Argv)
    requires Prepare(fs, argv).Accepted? && Prepare(fs, argv).command.XAdd?
    ensures Prepare(fs, Lower(fs, Prepare(fs, argv).command)) == Prepare(fs, argv)
  {
    hide Forms, Same, ReadOptions, ReadInt, ReadUnit, IsStreamOption, ReadArgs, FindForm, Ascii;
    SpecialNames();
    var again := Lower(fs, Prepare(fs, argv).command);
    assert again[3..] == argv[3..];
  }

  /** Lowering a prepared command and preparing it again gives the same command. */
  lemma NormalForm<F(!new)>(fs: Floats<F>, argv: Argv)
    requires FloatsOk(fs) && Prepare(fs, argv).Accepted?
    ensures Prepare(fs, Lower(fs, Prepare(fs, argv).command)) == Prepare(fs, argv)
  {
    hide Forms, Same, FloatsOk, Ascii, PreparePlain, ReadOptions, ShowOptions, ReadInt, ShowInt, ReadUnit;
    hide ShowUnit, IsStreamOption;
    var c := Prepare(fs, argv).command;
    var again := Lower(fs, c);
    match c {
      case Other(_, _) => OtherNormal(fs, argv);
      case Set(_, _, _) => SetNormal(fs, argv);
      case ZRange(_, _, _, _) => ZRangeNormal(fs, argv);
      case GeoDist(_, _, _, _) => GeoDistNormal(fs, argv);
      case XAdd(_, _, _) => XAddNormal(fs, argv);
      case Plain(f, _) =>
        PlainNormal(fs, argv);
        CanonicalName(argv[0], f.name);
        SameAsOne(argv[0], f.name, "SET");
        SameAsOne(argv[0], f.name, "ZRANGE");
        SameAsOne(argv[0], f.name, "GEODIST");
        SameAsOne(argv[0], f.name, "XADD");
    }
  }

  /** `write_argv`: push token after token. */
  method WriteArgv<F>(fs: Floats<F>, c: Command<F>) returns (out: Argv)
    ensures out == Lower(fs, c)
  {
    hide Ascii, ShowInt, ShowUnit;
    match c {
      case Plain(f, args) =>
        out := [Ascii(f.name)];
        for i := 0 to |args|
          invariant out == [Ascii(f.name)] + ShowArgs(fs, args)[..i]
        {
          out := out + [ShowArg(fs, args[i])];
        }
      case Set(key, value, options) =>
        out := [Ascii("SET"), key, value];
        assert options[0..] == options;
        for i := 0 to |options|
          invariant out + ShowOptions(options[i..]) == [Ascii("SET"), key, value] + ShowOptions(options)
        {
          assert options[i..][1..] == options[i + 1..];
          out := out + ShowOption(options[i]);
        }
      case ZRange(key, start, stop, withScores) =>
        out := [Ascii("ZRANGE"), key, ShowInt(start), ShowInt(stop)];
        if withScores {
          out := out + [Ascii("WITHSCORES")];
        }
      case GeoDist(key, a, b, unit) =>
        out := [Ascii("GEODIST"), key, a, b, ShowUnit(unit)];
      case XAdd(key, id, fields) =>
        out := [Ascii("XADD"), key, id] + fields;
      case Other(name, rest) =>
        out := [name] + rest;
    }
  }
}
