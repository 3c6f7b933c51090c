/** Reversing undoes any number of forwardings, exactly for the separators that the code can parse. */
module SrsRoundTrip {
  import opened Common
  import opened Srs

  // ---------------------------------------------------------------- timestamps

  function Base32Char(i: nat): char
    requires i < 32
  {
    if i < 26 then 'A' + i as char else '2' + (i - 26) as char
  }

  lemma AlphabetLetters(i: nat)
    requires i < 32
    ensures ALPHABET[i] == Base32Char(i)
  {
  }

  lemma {:induction false} CharIndexOf(s: string, i: nat)
    requires i < |s| && forall j, k :: 0 <= j < k < |s| ==> s[j] != s[k]
    ensures CharIndex(s, s[i]) == i
  {
    if i > 0 {
      assert s[1..][i - 1] == s[i];
      CharIndexOf(s[1..], i - 1);
    }
  }

  lemma AlphabetIndex(i: nat)
    requires i < 32
    ensures CharIndex(ALPHABET, ALPHABET[i]) == i && UpperChar(ALPHABET[i]) == ALPHABET[i]
  {
    forall j, k | 0 <= j < k < |ALPHABET| ensures ALPHABET[j] != ALPHABET[k] {
      AlphabetLetters(j);
      AlphabetLetters(k);
    }
    CharIndexOf(ALPHABET, i);
    AlphabetLetters(i);
  }

  lemma AndOdd(y: nat, k: nat, a: nat, b: nat, m: nat)
    requires b < 2 && y == 2 * a + b && k == 2 * m + 1
    ensures And(y, k) == b + 2 * And(a, m)
  {
    assert y / 2 == a && y % 2 == b;
    assert k / 2 == m && k % 2 == 1;
  }

  /** A mask of one more bit. */
  lemma MaskTurn(x: nat, lo: nat, mask: nat)
    requires And(x + lo / 2, mask) == lo / 2
    ensures And(2 * x + lo, 2 * mask + 1) == lo
  {
    hide And;
    AndOdd(2 * x + lo, 2 * mask + 1, x + lo / 2, lo % 2, mask);
  }

  /** Masking with five ones keeps the low five bits. */
  lemma MaskKeepsLow(hi: nat, lo: nat)
    requires lo < 32
    ensures And(32 * hi + lo, 0x1F) == lo
  {
    hide And;
    MaskNothing(hi);
    MaskTurn(hi, lo / 16, 0);
    MaskTurn(2 * hi, lo / 8, 1);
    MaskTurn(4 * hi, lo / 4, 3);
    MaskTurn(8 * hi, lo / 2, 7);
    MaskTurn(16 * hi, lo, 15);
  }

  lemma MaskNothing(x: nat)
    ensures And(x, 0) == 0
  {
  }

  /** One more bit below. */
  lemma OrTurn(x: nat, lo: nat)
    requires Or(x, lo / 2) == x + lo / 2
    ensures Or(2 * x, lo) == 2 * x + lo
  {
  }

  /** A number shifted past another is put beside it. */
  lemma OrIsSum(hi: nat, lo: nat)
    requires lo < 32
    ensures Or(32 * hi, lo) == 32 * hi + lo
  {
    hide Or;
    OrZero(hi);
    OrTurn(hi, lo / 16);
    OrTurn(2 * hi, lo / 8);
    OrTurn(4 * hi, lo / 4);
    OrTurn(8 * hi, lo / 2);
    OrTurn(16 * hi, lo);
  }

  lemma {:induction false} OrZero(x: nat)
    ensures Or(x, 0) == x
  {
    if x > 0 { OrZero(x / 2); }
  }

  lemma ShiftsLeft(x: nat)
    ensures ShiftLeft(x, 5) == 32 * x
  {
    assert ShiftLeft(x, 5) == ShiftLeft(2 * x, 4) == ShiftLeft(4 * x, 3) == ShiftLeft(8 * x, 2) == ShiftLeft(16 * x, 1);
  }

  lemma ShiftsRight(hi: nat, lo: nat)
    requires lo < 32
    ensures ShiftRight(32 * hi + lo, 5) == hi
  {
    assert ShiftRight(32 * hi + lo, 5) == ShiftRight(16 * hi + lo / 2, 4);
    assert ShiftRight(16 * hi + lo / 2, 4) == ShiftRight(8 * hi + lo / 4, 3);
    assert ShiftRight(8 * hi + lo / 4, 3) == ShiftRight(4 * hi + lo / 8, 2);
    assert ShiftRight(4 * hi + lo / 8, 2) == ShiftRight(2 * hi + lo / 16, 1) == hi;
  }

  lemma AgeIsDifference(d: nat, e: nat)
    ensures
      var code, today := d % 1024, e % 1024;
      (if today >= code then today - code else 1024 - code + today) == (e - d) % 1024
  {
    var q, r := d / 1024, e / 1024;
    assert e - d == 1024 * (r - q) + (e % 1024 - d % 1024);
  }

  lemma Digits(hi: nat, lo: nat)
    requires hi < 32 && lo < 32
    ensures And(ShiftRight(32 * hi + lo, 5), 0x1F) == hi && And(32 * hi + lo, 0x1F) == lo
  {
    hide And, ShiftRight;
    ShiftsRight(hi, lo);
    MaskKeepsLow(0, hi);
    MaskKeepsLow(hi, lo);
  }

  /** A stamp holds the two base32 digits of its code. */
  lemma StampDigits(hi: nat, lo: nat)
    requires hi < 32 && lo < 32
    ensures Stamp(32 * hi + lo) == [ALPHABET[hi], ALPHABET[lo]]
  {
    hide And, ShiftRight;
    Digits(hi, lo);
  }

  lemma StampCode(hi: nat, lo: nat)
    requires hi < 32 && lo < 32
    ensures Or(ShiftLeft(hi, 5), lo) == 32 * hi + lo
  {
    hide Or, ShiftLeft;
    ShiftsLeft(hi);
    OrIsSum(hi, lo);
  }

  lemma StampIsRead(cfg: Config, hi: nat, lo: nat, e: nat)
    requires hi < 32 && lo < 32
    ensures
      var code, today := 32 * hi + lo, e % 1024;
      ValidateTimestamp(cfg, Stamp(code), e).Ok? <==>
      (if today >= code then today - code else 1024 - code + today) <= cfg.maxAge
  {
    hide CharIndex, Stamp, Or, ShiftLeft;
    StampDigits(hi, lo);
    AlphabetIndex(hi);
    AlphabetIndex(lo);
    StampCode(hi, lo);
  }

  /** A day's stamp is accepted exactly when its age modulo 1024 days is within the limit. */
  lemma TimestampRoundTrip(cfg: Config, d: nat, e: nat)
    ensures ValidateTimestamp(cfg, GenerateTimestamp(d), e).Ok? <==> (e - d) % 1024 <= cfg.maxAge
  {
    hide ValidateTimestamp, Stamp;
    StampIsRead(cfg, d % 1024 / 32, d % 1024 % 32, e);
    AgeIsDifference(d, e);
  }

  // ---------------------------------------------------------------- splitting and parsing

  lemma {:induction false} IndexAfter(a: string, c: char, b: string)
    requires c !in a
    ensures Index(a + [c] + b, [c]) == |a|
  {
    var s := a + [c] + b;
    if a == "" {
      assert s[..1] == [c];
    } else {
      assert s[..1] == [a[0]] && s[1..] == a[1..] + [c] + b;
      IndexAfter(a[1..], c, b);
    }
  }

  lemma SplitAfter(a: string, c: char, b: string, n: nat)
    requires c !in a && n >= 2
    ensures SplitN(a + [c] + b, [c], n) == [a] + SplitN(b, [c], n - 1)
  {
    var s := a + [c] + b;
    IndexAfter(a, c, b);
    assert s[..|a|] == a && s[|a| + 1..] == b;
  }

  lemma SplitOne(s: string, c: char)
    ensures SplitN(s, [c], 1) == [s]
  {
  }

  lemma TrimKeeps(s: string, cut: char -> bool)
    requires s != "" && !cut(s[0]) && !cut(s[|s| - 1])
    ensures Trim(s, cut) == s
  {
  }

  /** Text that no trimming touches. */
  predicate Solid(c: char) {
    !IsSpace(c) && !IsBracket(c)
  }

  lemma ParsePrinted(local: string, domain: string)
    requires local != "" && Solid(local[0]) && '@' !in local
    requires domain != "" && Solid(domain[|domain| - 1]) && '@' !in domain
    ensures ParseEmail(local + "@" + domain) == Ok((local, ToLower(domain)))
  {
    var e := local + "@" + domain;
    assert e[|e| - 1] == domain[|domain| - 1];
    TrimKeeps(e, IsSpace);
    TrimKeeps(e, IsBracket);
    assert e == local + ['@'] + domain;
    IndexAfter(local, '@', domain);
    assert "@" == ['@'];
    assert e[..|local|] == local && e[|local| + 1..] == domain;
  }

  // ---------------------------------------------------------------- assumptions

  /** A domain that can stand in a rewritten address: lower case, separable, and not eaten by trimming. */
  predicate GoodDomain(c: char, d: string) {
    d != "" && '@' !in d && c !in d && ToLower(d) == d && Solid(d[|d| - 1])
  }

  /** One-character separator outside '@' and the hash alphabet; hashes in that alphabet; usable domains. */
  ghost predicate Sane(cfg: Config) {
    && |cfg.sep| == 1 && cfg.sep[0] != '@' && cfg.sep[0] !in ALPHABET
    && (forall s :: InAlphabet(cfg.hash(s)))
    && cfg.domains != []
    && (forall i :: 0 <= i < |cfg.domains| ==> GoodDomain(cfg.sep[0], cfg.domains[i]))
  }

  predicate InAlphabet(s: string) {
    forall i :: 0 <= i < |s| ==> s[i] in ALPHABET
  }

  /** An ordinary address: it parses, its domain has no separator, and it is not already rewritten. */
  predicate Plain(cfg: Config, sender: string)
    requires |cfg.sep| == 1
  {
    && ParseEmail(sender).Ok?
    && var (local, domain) := ParseEmail(sender).value;
       cfg.sep[0] !in domain && '@' !in domain && !IsSrs0(cfg, local) && !IsSrs1(cfg, local)
  }

  /** The rewriting domain of the first forwarding, subdomain included, has no separator either. */
  predicate GoodBase(cfg: Config, sender: string, base: string)
    requires |cfg.sep| == 1 && ParseEmail(sender).Ok?
  {
    base in cfg.domains && cfg.sep[0] !in BuildSrsDomain(cfg, base, ParseEmail(sender).value.1)
  }

  lemma AlphabetIsSolid(s: string, c: char)
    requires InAlphabet(s) && c !in ALPHABET
    ensures c !in s
  {
  }

  lemma NotAlphabet()
    ensures '@' !in ALPHABET && '0' !in ALPHABET && '1' !in ALPHABET
  {
    forall i | 0 <= i < |ALPHABET|
      ensures ALPHABET[i] != '@' && ALPHABET[i] != '0' && ALPHABET[i] != '1'
    {
      AlphabetLetters(i);
    }
  }

  lemma TimestampInAlphabet(day: nat)
    ensures InAlphabet(GenerateTimestamp(day))
  {
  }

  /** The subdomain form is itself usable. */
  lemma BuiltDomain(cfg: Config, base: string, domain: string)
    requires Sane(cfg) && base in cfg.domains && '@' !in domain && cfg.sep[0] !in BuildSrsDomain(cfg, base, domain)
    ensures GoodDomain(cfg.sep[0], BuildSrsDomain(cfg, base, domain))
  {
    var d := BuildSrsDomain(cfg, base, domain);
    assert GoodDomain(cfg.sep[0], base);
    if d != base {
      var sub := ReplaceDots(ToLower(domain));
      assert d == sub + "." + base;
      forall i | 0 <= i < |d| ensures d[i] != '@' && LowerChar(d[i]) == d[i] {
        if i < |sub| {
          assert d[i] == sub[i] && ToLower(domain)[i] == LowerChar(domain[i]);
        } else if i > |sub| {
          assert d[i] == base[i - |sub| - 1];
          assert ToLower(base)[i - |sub| - 1] == LowerChar(base[i - |sub| - 1]);
        }
      }
    }
  }

  // ---------------------------------------------------------------- the two printed forms

  ghost predicate Part(c: char, s: string) {
    c !in s && '@' !in s
  }

  lemma Srs0Shape(cfg: Config, ts: string, domain: string, local: string)
    requires Sane(cfg) && InAlphabet(ts) && '@' !in domain && '@' !in local
    ensures
      var s := Srs0Local(cfg, ts, domain, local);
      |s| >= 5 && '@' !in s && s[0] == 'S' && s[..4] == "SRS0" && s[4] == cfg.sep[0]
  {
    hide InAlphabet, GoodDomain, Joined;
    NotAlphabet();
    AlphabetIsSolid(cfg.hash(Joined([ts, domain, local], cfg.sep)), '@');
    AlphabetIsSolid(ts, '@');
  }

  /** SRS0: the local part parses back into its five pieces unless the separator is the '0' of the tag. */
  lemma Srs0Splits(cfg: Config, ts: string, domain: string, local: string)
    requires Sane(cfg) && InAlphabet(ts) && Part(cfg.sep[0], domain) && '@' !in local
    ensures
      var s := Srs0Local(cfg, ts, domain, local);
      var hash := cfg.hash(Joined([ts, domain, local], cfg.sep));
      && |s| >= 5 && '@' !in s && s[0] == 'S' && s[..4] == "SRS0" && s[4] == cfg.sep[0]
      && (cfg.sep[0] != '0' ==> SplitN(s, cfg.sep, 5) == ["SRS0", hash, ts, domain, local])
      && (cfg.sep[0] == '0' ==> SplitN(s, cfg.sep, 5)[0] == "SRS")
  {
    hide SplitN, Joined, InAlphabet, GoodDomain;
    var c := cfg.sep[0];
    var s := Srs0Local(cfg, ts, domain, local);
    var hash := cfg.hash(Joined([ts, domain, local], cfg.sep));
    assert cfg.sep == [c];
    NotAlphabet();
    AlphabetIsSolid(hash, c);
    AlphabetIsSolid(hash, '@');
    AlphabetIsSolid(ts, c);
    AlphabetIsSolid(ts, '@');
    var r3 := domain + [c] + local;
    var r2 := ts + [c] + r3;
    var r1 := hash + [c] + r2;
    assert s == "SRS0" + [c] + r1;
    if c == '0' {
      assert s == "SRS" + [c] + ([c] + r1);
      SplitAfter("SRS", c, [c] + r1, 5);
    } else {
      NotInTag(c);
      SplitAfter("SRS0", c, r1, 5);
      SplitAfter(hash, c, r2, 4);
      SplitAfter(ts, c, r3, 3);
      SplitAfter(domain, c, local, 2);
      SplitOne(local, c);
    }
  }

  lemma NotInTag(c: char)
    requires c !in ALPHABET
    ensures c != '0' ==> c !in "SRS0"
    ensures c != '1' ==> c !in "SRS1"
  {
    assert ALPHABET[17] == 'R' && ALPHABET[18] == 'S';
  }

  /** SRS1: the local part parses back into its four pieces unless the separator is the '1' of the tag. */
  lemma Srs1Splits(cfg: Config, inner: string, domain: string)
    requires Sane(cfg) && Part(cfg.sep[0], domain) && '@' !in inner
    ensures
      var s := Srs1Local(cfg, inner, domain);
      var hash := cfg.hash(Joined([domain, inner, ""], cfg.sep));
      && |s| >= 5 && '@' !in s && s[0] == 'S' && s[..4] == "SRS1" && s[4] == cfg.sep[0]
      && (cfg.sep[0] != '1' ==> SplitN(s, cfg.sep, 4) == ["SRS1", hash, domain, inner])
      && (cfg.sep[0] == '1' ==> SplitN(s, cfg.sep, 4)[0] == "SRS")
  {
    hide SplitN, Joined, InAlphabet, GoodDomain;
    var c := cfg.sep[0];
    var s := Srs1Local(cfg, inner, domain);
    var hash := cfg.hash(Joined([domain, inner, ""], cfg.sep));
    assert cfg.sep == [c];
    NotAlphabet();
    AlphabetIsSolid(hash, c);
    AlphabetIsSolid(hash, '@');
    var r2 := domain + [c] + inner;
    var r1 := hash + [c] + r2;
    assert s == "SRS1" + [c] + r1;
    if c == '1' {
      assert s == "SRS" + [c] + ([c] + r1);
      SplitAfter("SRS", c, [c] + r1, 4);
    } else {
      NotInTag(c);
      SplitAfter("SRS1", c, r1, 4);
      SplitAfter(hash, c, r2, 3);
      SplitAfter(domain, c, inner, 2);
      SplitOne(inner, c);
    }
  }

  /** Whether a tagged local part is recognised depends on the case of the separator alone. */
  lemma TagRecognised(cfg: Config, local: string)
    requires |cfg.sep| == 1 && |local| >= 5 && local[4] == cfg.sep[0]
    ensures local[..4] == "SRS0" ==>
              (IsSrs0(cfg, local) <==> UpperChar(cfg.sep[0]) == cfg.sep[0]) && !IsSrs1(cfg, local)
    ensures local[..4] == "SRS1" ==>
              (IsSrs1(cfg, local) <==> UpperChar(cfg.sep[0]) == cfg.sep[0]) && !IsSrs0(cfg, local)
  {
    var u := ToUpper(local);
    var c := cfg.sep[0];
    assert cfg.sep == [c];
    assert forall i :: 0 <= i < 4 ==> local[..4][i] == local[i];
    assert u[..5] == [u[0], u[1], u[2], u[3], u[4]];
    assert "SRS0" + [c] == ['S', 'R', 'S', '0', c] && "SRS1" + [c] == ['S', 'R', 'S', '1', c];
  }

  // ---------------------------------------------------------------- repeated forwarding

  /** n forwardings in a row; bases(i) and days(i) are the domain picked and the day of the i-th. */
  function ForwardN(cfg: Config, sender: string, n: nat, bases: nat -> string, days: nat -> nat): Result<string>
    requires cfg.domains != [] && cfg.sep != ""
  {
    if n == 0 then Ok(sender)
    else
      var r := ForwardN(cfg, sender, n - 1, bases, days);
      if r.Err? then r else Forward(cfg, r.value, bases(n - 1), days(n - 1))
  }

  ghost predicate Setting(cfg: Config, sender: string, bases: nat -> string) {
    && Sane(cfg) && Plain(cfg, sender) && GoodBase(cfg, sender, bases(0))
    && forall i :: bases(i) in cfg.domains
  }

  /** The separators the code can parse after n forwardings. */
  predicate Parsable(c: char, n: nat) {
    UpperChar(c) == c && c != '0' && (n <= 1 || c != '1')
  }

  function FirstLocal(cfg: Config, sender: string, day: nat): string
    requires ParseEmail(sender).Ok?
  {
    Srs0Local(cfg, GenerateTimestamp(day), ParseEmail(sender).value.1, ParseEmail(sender).value.0)
  }

  function FirstDomain(cfg: Config, sender: string, base: string): string
    requires ParseEmail(sender).Ok?
  {
    BuildSrsDomain(cfg, base, ParseEmail(sender).value.1)
  }

  /** What is known of the first rewritten address. */
  lemma FirstForward(cfg: Config, sender: string, base: string, day: nat)
    requires Sane(cfg) && Plain(cfg, sender) && GoodBase(cfg, sender, base)
    ensures
      var local, domain := FirstLocal(cfg, sender, day), FirstDomain(cfg, sender, base);
      && Forward(cfg, sender, base, day) == Ok(local + "@" + domain)
      && ParseEmail(local + "@" + domain) == Ok((local, domain))
      && '@' !in local && GoodDomain(cfg.sep[0], domain)
      && (IsSrs0(cfg, local) <==> UpperChar(cfg.sep[0]) == cfg.sep[0]) && !IsSrs1(cfg, local)
  {
    hide ParseEmail, SplitN, InAlphabet, IsSrs0, IsSrs1, GenerateTimestamp;
    var (l, d) := ParseEmail(sender).value;
    var local, domain := FirstLocal(cfg, sender, day), FirstDomain(cfg, sender, base);
    TimestampInAlphabet(day);
    SenderNotEmpty(sender);
    Srs0Splits(cfg, GenerateTimestamp(day), d, l);
    BuiltDomain(cfg, base, d);
    ParsePrinted(local, domain);
    TagRecognised(cfg, local);
  }

  lemma SenderNotEmpty(sender: string)
    requires ParseEmail(sender).Ok?
    ensures sender != "" && '@' !in ParseEmail(sender).value.0
  {
  }

  /** Reversing the first rewritten address, or any address that wraps it. */
  lemma ReverseFirst(cfg: Config, sender: string, base: string, day: nat, e: nat)
    requires Sane(cfg) && Plain(cfg, sender) && GoodBase(cfg, sender, base)
    ensures
      var (l, d) := ParseEmail(sender).value;
      Reverse(cfg, FirstLocal(cfg, sender, day) + "@" + FirstDomain(cfg, sender, base), e) == Ok(l + "@" + d)
      <==> Parsable(cfg.sep[0], 1) && (e - day) % 1024 <= cfg.maxAge
  {
    hide ParseEmail, SplitN, InAlphabet, IsSrs0, IsSrs1, GenerateTimestamp, ValidateTimestamp, Srs0Local, Joined;
    var (l, d) := ParseEmail(sender).value;
    var local := FirstLocal(cfg, sender, day);
    FirstForward(cfg, sender, base, day);
    TimestampInAlphabet(day);
    SenderNotEmpty(sender);
    Srs0Splits(cfg, GenerateTimestamp(day), d, l);
    TimestampRoundTrip(cfg, day, e);
    assert ToUpper("SRS0") == "SRS0";
  }

  /**
   The second rewriting wraps the first, and wrapping is undone unless the separator is '1'; but with a lower-case
   separator the address is taken for a plain one and only gets longer.
   */
  lemma SecondForward(cfg: Config, sender: string, base: string, day: nat, base': string, day': nat, e: nat)
    requires Sane(cfg) && Plain(cfg, sender) && GoodBase(cfg, sender, base)
    ensures
      var local, domain := FirstLocal(cfg, sender, day), FirstDomain(cfg, sender, base);
      var first := local + "@" + domain;
      var second := Srs1Local(cfg, local, domain) + "@" + cfg.domains[0];
      if UpperChar(cfg.sep[0]) == cfg.sep[0] then
        && Forward(cfg, first, base', day') == Ok(second)
        && Forward(cfg, second, base', day') == Ok(second)
        && Reverse(cfg, second, e) == if cfg.sep[0] == '1' then Err(BadFormat) else Reverse(cfg, first, e)
      else
        Forward(cfg, first, base', day').Ok? && |Forward(cfg, first, base', day').value| > |first|
  {
    if UpperChar(cfg.sep[0]) == cfg.sep[0] {
      WrappedOnce(cfg, sender, base, day, base', day', e);
    } else {
      hide ParseEmail, Srs0Local, FirstLocal, FirstDomain, Forward;
      FirstIsTagged(cfg, sender, base, day);
      LowerCaseGrows(cfg, FirstLocal(cfg, sender, day) + "@" + FirstDomain(cfg, sender, base), base', day');
    }
  }

  lemma WrappedOnce(cfg: Config, sender: string, base: string, day: nat, base': string, day': nat, e: nat)
    requires Sane(cfg) && Plain(cfg, sender) && GoodBase(cfg, sender, base)
    requires UpperChar(cfg.sep[0]) == cfg.sep[0]
    ensures
      var local, domain := FirstLocal(cfg, sender, day), FirstDomain(cfg, sender, base);
      var second := Srs1Local(cfg, local, domain) + "@" + cfg.domains[0];
      && Forward(cfg, local + "@" + domain, base', day') == Ok(second)
      && Forward(cfg, second, base', day') == Ok(second)
      && Reverse(cfg, second, e) == if cfg.sep[0] == '1' then Err(BadFormat) else Reverse(cfg, local + "@" + domain, e)
  {
    hide ParseEmail, SplitN, InAlphabet, IsSrs0, IsSrs1, Srs0Local, Srs1Local, ReverseSrs0, Joined;
    var c := cfg.sep[0];
    var local, domain := FirstLocal(cfg, sender, day), FirstDomain(cfg, sender, base);
    var local2 := Srs1Local(cfg, local, domain);
    FirstForward(cfg, sender, base, day);
    HasSeparator(cfg, sender, day);
    Srs1Splits(cfg, local, domain);
    assert GoodDomain(c, cfg.domains[0]);
    ParsePrinted(local2, cfg.domains[0]);
    TagRecognised(cfg, local2);
    assert ToUpper("SRS1") == "SRS1";
    assert |ToUpper("SRS")| == 3;
  }

  lemma HasSeparator(cfg: Config, sender: string, day: nat)
    requires Sane(cfg) && ParseEmail(sender).Ok?
    ensures Index(FirstLocal(cfg, sender, day), cfg.sep) >= 0
  {
    hide ParseEmail, InAlphabet;
    FirstOccurrence(FirstLocal(cfg, sender, day), cfg.sep[0]);
    assert cfg.sep == [cfg.sep[0]];
    assert FirstLocal(cfg, sender, day)[4] == cfg.sep[0];
  }

  lemma {:induction false} ForwardingSettles(
      cfg: Config, sender: string, n: nat, bases: nat -> string, days: nat -> nat)
    requires Setting(cfg, sender, bases) && UpperChar(cfg.sep[0]) == cfg.sep[0] && n >= 2
    ensures
      var local, domain := FirstLocal(cfg, sender, days(0)), FirstDomain(cfg, sender, bases(0));
      ForwardN(cfg, sender, n, bases, days) == Ok(Srs1Local(cfg, local, domain) + "@" + cfg.domains[0])
  {
    hide Forward, Reverse, Srs1Local, ParseEmail, FirstLocal, FirstDomain, GoodDomain, IsSrs0, IsSrs1;
    FirstForward(cfg, sender, bases(0), days(0));
    assert ForwardN(cfg, sender, 0, bases, days) == Ok(sender);
    assert ForwardN(cfg, sender, 1, bases, days) == Forward(cfg, sender, bases(0), days(0));
    WrappedOnce(cfg, sender, bases(0), days(0), bases(n - 1), days(n - 1), 0);
    if n > 2 { ForwardingSettles(cfg, sender, n - 1, bases, days); }
  }

  // ---------------------------------------------------------------- lower-case separators

  /** An SRS0 local part and a domain, as printed but perhaps with separators inside the domain. */
  predicate Tagged(cfg: Config, local: string, domain: string)
    requires |cfg.sep| == 1
  {
    && |local| >= 5 && local[..4] == "SRS0" && local[4] == cfg.sep[0] && '@' !in local
    && domain != "" && '@' !in domain && Solid(domain[|domain| - 1])
  }

  ghost predicate IsTagged(cfg: Config, address: string)
    requires |cfg.sep| == 1
  {
    exists local, domain :: address == local + "@" + domain && Tagged(cfg, local, domain)
  }

  lemma BuiltEnds(cfg: Config, base: string, domain: string)
    requires Sane(cfg) && base in cfg.domains && '@' !in domain
    ensures
      var d := BuildSrsDomain(cfg, base, domain);
      d != "" && '@' !in d && Solid(d[|d| - 1])
  {
    var d := BuildSrsDomain(cfg, base, domain);
    assert GoodDomain(cfg.sep[0], base);
    if d != base {
      var sub := ReplaceDots(ToLower(domain));
      assert d == sub + "." + base;
      forall i | 0 <= i < |sub| ensures sub[i] != '@' {
        assert ToLower(domain)[i] == LowerChar(domain[i]);
      }
    }
  }

  lemma PrintedIsTagged(cfg: Config, ts: string, domain: string, local: string, base: string)
    requires Sane(cfg) && base in cfg.domains && InAlphabet(ts) && '@' !in domain && '@' !in local
    ensures IsTagged(cfg, Srs0Local(cfg, ts, domain, local) + "@" + BuildSrsDomain(cfg, base, domain))
  {
    hide InAlphabet, GoodDomain, Srs0Local, BuildSrsDomain;
    Srs0Shape(cfg, ts, domain, local);
    BuiltEnds(cfg, base, domain);
    assert Tagged(cfg, Srs0Local(cfg, ts, domain, local), BuildSrsDomain(cfg, base, domain));
  }

  lemma LowerHasNoAt(s: string)
    requires '@' !in s
    ensures '@' !in ToLower(s)
  {
  }

  lemma FirstIsTagged(cfg: Config, sender: string, base: string, day: nat)
    requires Sane(cfg) && Plain(cfg, sender) && GoodBase(cfg, sender, base)
    ensures IsTagged(cfg, FirstLocal(cfg, sender, day) + "@" + FirstDomain(cfg, sender, base))
  {
    hide ParseEmail, Srs0Local, BuildSrsDomain, InAlphabet, IsTagged;
    var (l, d) := ParseEmail(sender).value;
    SenderNotEmpty(sender);
    TimestampInAlphabet(day);
    PrintedIsTagged(cfg, GenerateTimestamp(day), d, l, base);
  }

  /** A forwarded address is forwarded as if it were plain: all of it goes into the next local part. */
  lemma LowerCaseGrows(cfg: Config, address: string, base: string, day: nat)
    requires Sane(cfg) && UpperChar(cfg.sep[0]) != cfg.sep[0] && IsTagged(cfg, address)
    ensures Forward(cfg, address, base, day).Ok? && |Forward(cfg, address, base, day).value| > |address|
  {
    hide ParseEmail, IsSrs0, IsSrs1, BuildSrsDomain, GenerateTimestamp, InAlphabet;
    var local, domain :| address == local + "@" + domain && Tagged(cfg, local, domain);
    assert local[0] == local[..4][0] == 'S';
    ParsePrinted(local, domain);
    TagRecognised(cfg, local);
  }

  lemma TaggedStep(cfg: Config, address: string, base: string, day: nat, e: nat)
    requires Sane(cfg) && base in cfg.domains && UpperChar(cfg.sep[0]) != cfg.sep[0] && IsTagged(cfg, address)
    ensures Reverse(cfg, address, e) == Err(NotSrs)
    ensures Forward(cfg, address, base, day).Ok? && IsTagged(cfg, Forward(cfg, address, base, day).value)
  {
    hide ParseEmail, IsSrs0, IsSrs1, Srs0Local, BuildSrsDomain, GenerateTimestamp, InAlphabet;
    var local, domain :| address == local + "@" + domain && Tagged(cfg, local, domain);
    assert local[0] == local[..4][0] == 'S';
    ParsePrinted(local, domain);
    TagRecognised(cfg, local);
    LowerHasNoAt(domain);
    TimestampInAlphabet(day);
    PrintedIsTagged(cfg, GenerateTimestamp(day), ToLower(domain), local, base);
  }

  lemma {:induction false} LowerCaseNeverReverses(
      cfg: Config, sender: string, n: nat, bases: nat -> string, days: nat -> nat, e: nat)
    requires Setting(cfg, sender, bases) && UpperChar(cfg.sep[0]) != cfg.sep[0] && n >= 1
    ensures
      var r := ForwardN(cfg, sender, n, bases, days);
      r.Ok? && IsTagged(cfg, r.value) && Reverse(cfg, r.value, e) == Err(NotSrs)
  {
    hide Forward, Reverse, ParseEmail, IsTagged, Srs0Local;
    if n == 1 {
      var (l, d) := ParseEmail(sender).value;
      assert ForwardN(cfg, sender, 0, bases, days) == Ok(sender);
      FirstForward(cfg, sender, bases(0), days(0));
      SenderNotEmpty(sender);
      TimestampInAlphabet(days(0));
      PrintedIsTagged(cfg, GenerateTimestamp(days(0)), d, l, bases(0));
    } else {
      LowerCaseNeverReverses(cfg, sender, n - 1, bases, days, e);
      TaggedStep(cfg, ForwardN(cfg, sender, n - 1, bases, days).value, bases(n - 1), days(n - 1), e);
    }
    TaggedStep(cfg, ForwardN(cfg, sender, n, bases, days).value, bases(n), 0, e);
  }

  // ---------------------------------------------------------------- main results

  /**
   For every n >= 1, n forwardings of a plain address succeed, and reversing the result gives back its local part and
   lower-cased domain exactly when the separator is one the code can parse and the first stamp is within its age.
   */
  lemma ReverseUndoesForward(
      cfg: Config, sender: string, n: nat, bases: nat -> string, days: nat -> nat, e: nat)
    requires Setting(cfg, sender, bases) && n >= 1
    ensures
      var (l, d) := ParseEmail(sender).value;
      var r := ForwardN(cfg, sender, n, bases, days);
      && r.Ok?
      && (Reverse(cfg, r.value, e) == Ok(l + "@" + d) <==>
            Parsable(cfg.sep[0], n) && (e - days(0)) % 1024 <= cfg.maxAge)
  {
    hide Forward, Reverse, ParseEmail, Srs0Local, Srs1Local, FirstLocal, FirstDomain, InAlphabet, GoodDomain;
    if UpperChar(cfg.sep[0]) != cfg.sep[0] {
      LowerCaseNeverReverses(cfg, sender, n, bases, days, e);
    } else {
      FirstForward(cfg, sender, bases(0), days(0));
      ReverseFirst(cfg, sender, bases(0), days(0), e);
      if n == 1 {
        assert ForwardN(cfg, sender, 0, bases, days) == Ok(sender);
      } else {
        ForwardingSettles(cfg, sender, n, bases, days);
        WrappedOnce(cfg, sender, bases(0), days(0), bases(1), days(1), e);
      }
    }
  }

  /** From the second forwarding on the address no longer changes, unless the separator is a lower-case letter. */
  lemma ForwardingIsStable(cfg: Config, sender: string, n: nat, bases: nat -> string, days: nat -> nat)
    requires Setting(cfg, sender, bases) && UpperChar(cfg.sep[0]) == cfg.sep[0] && n >= 2
    ensures ForwardN(cfg, sender, n, bases, days) == ForwardN(cfg, sender, 2, bases, days)
  {
    ForwardingSettles(cfg, sender, n, bases, days);
    ForwardingSettles(cfg, sender, 2, bases, days);
  }

  /** With a lower-case separator every forwarding makes the address longer. */
  lemma {:induction false} LowerCaseNeverSettles(
      cfg: Config, sender: string, n: nat, bases: nat -> string, days: nat -> nat)
    requires Setting(cfg, sender, bases) && UpperChar(cfg.sep[0]) != cfg.sep[0] && n >= 1
    ensures
      var r, next := ForwardN(cfg, sender, n, bases, days), ForwardN(cfg, sender, n + 1, bases, days);
      r.Ok? && next.Ok? && |next.value| > |r.value| >= n
  {
    hide Forward, Reverse, ParseEmail, IsTagged;
    LowerCaseNeverReverses(cfg, sender, n, bases, days, 0);
    var r := ForwardN(cfg, sender, n, bases, days);
    LowerCaseGrows(cfg, r.value, bases(n), days(n));
    if n > 1 {
      LowerCaseNeverSettles(cfg, sender, n - 1, bases, days);
    } else {
      TaggedIsNotEmpty(cfg, r.value);
    }
  }

  lemma TaggedIsNotEmpty(cfg: Config, address: string)
    requires |cfg.sep| == 1 && IsTagged(cfg, address)
    ensures |address| >= 1
  {
  }

  /**
   From the second forwarding on the address no longer changes exactly when the separator is not a lower-case letter;
   and exactly then there is a bound on its length, however often it is forwarded.
   */
  lemma StableIff(cfg: Config, sender: string, bases: nat -> string, days: nat -> nat)
    requires Setting(cfg, sender, bases)
    ensures UpperChar(cfg.sep[0]) == cfg.sep[0] <==>
            forall n: nat :: n >= 2 ==> ForwardN(cfg, sender, n, bases, days) == ForwardN(cfg, sender, 2, bases, days)
    ensures UpperChar(cfg.sep[0]) == cfg.sep[0] <==>
            exists bound: nat :: ForwardedWithin(cfg, sender, bases, days, bound)
  {
    hide ForwardN;
    if UpperChar(cfg.sep[0]) == cfg.sep[0] {
      forall n: nat | n >= 2
        ensures ForwardN(cfg, sender, n, bases, days) == ForwardN(cfg, sender, 2, bases, days)
      {
        ForwardingIsStable(cfg, sender, n, bases, days);
      }
      StableIsBounded(cfg, sender, bases, days);
    } else {
      LowerCaseNeverSettles(cfg, sender, 2, bases, days);
      assert ForwardN(cfg, sender, 3, bases, days) != ForwardN(cfg, sender, 2, bases, days);
      forall bound: nat ensures !ForwardedWithin(cfg, sender, bases, days, bound) {
        LowerCaseNeverSettles(cfg, sender, bound + 1, bases, days);
      }
    }
  }

  /** No number of forwardings makes the address longer than the bound. */
  ghost predicate ForwardedWithin(cfg: Config, sender: string, bases: nat -> string, days: nat -> nat, bound: nat)
    requires cfg.domains != [] && cfg.sep != ""
  {
    forall n: nat ::
      ForwardN(cfg, sender, n, bases, days).Ok? ==> |ForwardN(cfg, sender, n, bases, days).value| <= bound
  }

  function LengthOf(r: Result<string>): nat {
    if r.Ok? then |r.value| else 0
  }

  lemma StableIsBounded(cfg: Config, sender: string, bases: nat -> string, days: nat -> nat)
    requires cfg.domains != [] && cfg.sep != ""
    requires forall n: nat :: n >= 2 ==> ForwardN(cfg, sender, n, bases, days) == ForwardN(cfg, sender, 2, bases, days)
    ensures exists bound: nat :: ForwardedWithin(cfg, sender, bases, days, bound)
  {
    hide ForwardN;
    var a, b, c := ForwardN(cfg, sender, 0, bases, days), ForwardN(cfg, sender, 1, bases, days),
      ForwardN(cfg, sender, 2, bases, days);
    var bound := LengthOf(a) + LengthOf(b) + LengthOf(c);
    forall n: nat
      ensures ForwardN(cfg, sender, n, bases, days).Ok? ==> |ForwardN(cfg, sender, n, bases, days).value| <= bound
    {
      if n >= 2 { assert ForwardN(cfg, sender, n, bases, days) == c; }
    }
    assert ForwardedWithin(cfg, sender, bases, days, bound);
  }

  // ---------------------------------------------------------------- what is accepted

  ghost predicate Pieces0(cfg: Config, local: string, tag: string, ts: string, domain: string, sender: string) {
    && local == Joined([tag, cfg.hash(Joined([ts, domain, sender], cfg.sep)), ts, domain, sender], cfg.sep)
    && ToUpper(tag) == "SRS0"
  }

  /** local is an SRS0 text with the right hash and a stamp in date, for the given original sender. */
  ghost predicate Signed0(cfg: Config, local: string, original: string, e: nat) {
    exists tag, ts, domain, sender ::
      && Pieces0(cfg, local, tag, ts, domain, sender)
      && ValidateTimestamp(cfg, ts, e).Ok? && original == sender + "@" + domain
  }

  /** local is an SRS1 text with the right hash around the given inner local part and domain. */
  ghost predicate Signed1(cfg: Config, local: string, inner: string, domain: string) {
    exists tag ::
      && local == Joined([tag, cfg.hash(Joined([domain, inner, ""], cfg.sep)), domain, inner], cfg.sep)
      && ToUpper(tag) == "SRS1"
  }

  /** An SRS0 address signed and in date for the original sender, inside any number of signed SRS1 wrappings. */
  ghost predicate SignedChain(cfg: Config, address: string, original: string, e: nat)
    decreases |address|
  {
    && ParseEmail(address).Ok?
    && var local := ParseEmail(address).value.0;
       || Signed0(cfg, local, original, e)
       || exists inner, domain ::
            && |inner| + 1 + |domain| < |address| && Signed1(cfg, local, inner, domain)
            && SignedChain(cfg, inner + "@" + domain, original, e)
  }

  /** An address is reversed only if its hash is right, at every level of wrapping, and its stamp is in date. */
  lemma {:induction false} AcceptedIsSigned(cfg: Config, address: string, e: nat)
    requires cfg.sep != ""
    ensures Reverse(cfg, address, e).Ok? ==> SignedChain(cfg, address, Reverse(cfg, address, e).value, e)
    decreases |address|
  {
    hide ParseEmail, ReverseSrs0, ReverseSrs1, IsSrs0, IsSrs1, Signed0, Signed1;
    if Reverse(cfg, address, e).Ok? {
      var local := ParseEmail(address).value.0;
      if IsSrs0(cfg, local) {
        Srs0IsSigned(cfg, local, e);
      } else {
        var inner, domain := Srs1IsSigned(cfg, local, e);
        AcceptedIsSigned(cfg, inner + "@" + domain, e);
      }
    }
  }

  lemma Srs0IsSigned(cfg: Config, local: string, e: nat)
    requires cfg.sep != "" && ReverseSrs0(cfg, local, e).Ok?
    ensures Signed0(cfg, local, ReverseSrs0(cfg, local, e).value, e)
  {
    hide ValidateTimestamp, Joined, SplitN;
    var p := SplitN(local, cfg.sep, 5);
    assert p == [p[0], p[1], p[2], p[3], p[4]];
    assert Pieces0(cfg, local, p[0], p[2], p[3], p[4]);
  }

  lemma Srs1IsSigned(cfg: Config, local: string, e: nat) returns (inner: string, domain: string)
    requires cfg.sep != "" && ReverseSrs1(cfg, local, e).Ok?
    ensures Signed1(cfg, local, inner, domain) && |inner| + 1 + |domain| < |local|
    ensures Reverse(cfg, inner + "@" + domain, e) == ReverseSrs1(cfg, local, e)
  {
    hide Reverse, Joined, SplitN;
    var p := SplitN(local, cfg.sep, 4);
    assert p == [p[0], p[1], p[2], p[3]];
    inner, domain := p[3], p[2];
    NestedIsShorter(local, cfg.sep);
  }

  // ---------------------------------------------------------------- what is refused

  /** An SRS0 text with any hash, its pieces joined by the separator. */
  function Claimed(cfg: Config, hash: string, ts: string, domain: string, local: string): string {
    "SRS0" + cfg.sep + hash + cfg.sep + ts + cfg.sep + domain + cfg.sep + local
  }

  lemma ClaimedSplits(cfg: Config, hash: string, ts: string, domain: string, local: string)
    requires |cfg.sep| == 1 && cfg.sep[0] !in "SRS0"
    requires cfg.sep[0] !in hash && cfg.sep[0] !in ts && cfg.sep[0] !in domain
    ensures SplitN(Claimed(cfg, hash, ts, domain, local), cfg.sep, 5) == ["SRS0", hash, ts, domain, local]
  {
    hide SplitN;
    var c := cfg.sep[0];
    assert cfg.sep == [c];
    var r3 := domain + [c] + local;
    var r2 := ts + [c] + r3;
    var r1 := hash + [c] + r2;
    assert Claimed(cfg, hash, ts, domain, local) == "SRS0" + [c] + r1;
    SplitAfter("SRS0", c, r1, 5);
    SplitAfter(hash, c, r2, 4);
    SplitAfter(ts, c, r3, 3);
    SplitAfter(domain, c, local, 2);
    SplitOne(local, c);
  }

  /** An SRS0 text is refused for its stamp first, then for its hash, and otherwise gives the sender it names. */
  lemma ClaimIsChecked(cfg: Config, hash: string, ts: string, domain: string, local: string, e: nat)
    requires |cfg.sep| == 1 && cfg.sep[0] !in "SRS0"
    requires cfg.sep[0] !in hash && cfg.sep[0] !in ts && cfg.sep[0] !in domain
    ensures
      var r, stamp := ReverseSrs0(cfg, Claimed(cfg, hash, ts, domain, local), e), ValidateTimestamp(cfg, ts, e);
      if stamp.Err? then r == Err(stamp.error)
      else if hash != cfg.hash(ts + cfg.sep + domain + cfg.sep + local) then r == Err(BadHash)
      else r == Ok(local + "@" + domain)
  {
    hide SplitN, ValidateTimestamp;
    ClaimedSplits(cfg, hash, ts, domain, local);
    assert ToUpper("SRS0") == "SRS0";
    JoinedThree(ts, domain, local, cfg.sep);
  }

  lemma JoinedThree(a: string, b: string, c: string, sep: string)
    ensures Joined([a, b, c], sep) == a + sep + b + sep + c
  {
    assert [a, b, c][1..] == [b, c] && [b, c][1..] == [c];
    assert Joined([b, c], sep) == b + sep + c;
  }

  /** Nothing is made of an empty or unreadable address, and only rewritten addresses are reversed. */
  lemma OthersAreRefused(cfg: Config, address: string, base: string, day: nat)
    requires cfg.domains != [] && cfg.sep != ""
    ensures Forward(cfg, "", base, day) == Err(EmptyAddress) && Reverse(cfg, "", day) == Err(EmptyAddress)
    ensures address != "" && ParseEmail(address).Err? ==>
              Forward(cfg, address, base, day) == Err(BadAddress) && Reverse(cfg, address, day) == Err(BadAddress)
    ensures ParseEmail(address).Ok? ==>
              var local := ToUpper(ParseEmail(address).value.0);
              !("SRS0" + cfg.sep <= local) && !("SRS1" + cfg.sep <= local) ==> Reverse(cfg, address, day) == Err(NotSrs)
  {
    hide ReverseSrs0, ReverseSrs1;
    if ParseEmail(address).Ok? { SenderNotEmpty(address); }
  }

  // ---------------------------------------------------------------- addresses

  /** The rewriting domain, or a subdomain of it named after the sender's domain with dashes for dots. */
  lemma RewrittenDomain(cfg: Config, base: string, domain: string)
    ensures
      var d := BuildSrsDomain(cfg, base, domain);
      if !cfg.dynamic || domain == "" then d == base
      else
        && |d| == |domain| + 1 + |base| && d[|domain|] == '.' && d[|domain| + 1..] == base
        && forall i :: 0 <= i < |domain| ==> d[i] == if domain[i] == '.' then '-' else LowerChar(domain[i])
  {
  }

  /** Spaces, then angle brackets, are dropped around an address. */
  function Bare(email: string): string {
    Trim(Trim(email, IsSpace), IsBracket)
  }

  /** An address parses exactly if what is left has a single at sign that is neither first nor last. */
  lemma ParsedExactly(email: string, i: nat)
    requires 0 < i < |Bare(email)| - 1 && Bare(email)[i] == '@'
    ensures
      var e := Bare(email);
      if forall k :: 0 <= k < |e| && k != i ==> e[k] != '@' then ParseEmail(email) == Ok((e[..i], ToLower(e[i + 1..])))
      else ParseEmail(email) == Err(BadAddress)
  {
    var e := Bare(email);
    FirstOccurrence(e, '@');
    assert "@" == ['@'];
    var j := Index(e, "@");
    if j < 0 {
      assert false;
    } else if j != i {
      assert j < i;
      assert e[j + 1..][i - j - 1] == '@';
    } else {
      assert forall k :: 0 <= k < i ==> e[..i][k] == e[k];
      assert forall k :: i < k < |e| ==> e[i + 1..][k - i - 1] == e[k];
    }
  }

  lemma NotParsed(email: string)
    requires
      var e := Bare(email);
      '@' !in e || e[0] == '@' || (e[|e| - 1] == '@' && forall k :: 0 <= k < |e| - 1 ==> e[k] != '@')
    ensures ParseEmail(email) == Err(BadAddress)
  {
    var e := Bare(email);
    FirstOccurrence(e, '@');
    assert "@" == ['@'];
    var j := Index(e, "@");
    if j > 0 { assert e[j] == e[j..j + 1][0]; }
  }
}
