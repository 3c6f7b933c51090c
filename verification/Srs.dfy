/**
 The Sender Rewriting Scheme: printing and parsing of SRS0 and SRS1 addresses.  Strings are ASCII.  The keyed hash
 (HMAC-SHA1, base32, truncated) is a function parameter of which only the alphabet of its results is assumed.
 */
module Srs {
  import opened Common

  const ALPHABET: string := "ABCDEFGHIJKLMNOPQRSTUVWXYZ234567"

  datatype Error = EmptyAddress | BadAddress | NotSrs | BadFormat | BadTimestamp | Expired | BadHash

  datatype Result<+T> = Ok(value: T) | Err(error: Error)

  /** domains are the rewriting domains, already lower-cased; hash is the keyed hash of the joined parts. */
  datatype Config = Config(sep: string, hash: string -> string, maxAge: int, domains: seq<string>, dynamic: bool)

  // ---------------------------------------------------------------- string helpers

  /** First occurrence of sub, or -1. */
  function Index(s: string, sub: string): (i: int)
    ensures -1 <= i && (i >= 0 ==> OccursAt(s, sub, i))
  {
    if |s| < |sub| then -1
    else if s[..|sub|] == sub then 0
    else
      var r := Index(s[1..], sub);
      if r < 0 then -1 else
        assert s[1..][r..r + |sub|] == s[r + 1..r + 1 + |sub|];
        r + 1
  }

  /** At most n pieces; the last one keeps any further separators. */
  function SplitN(s: string, sep: string, n: nat): (parts: seq<string>)
    requires n >= 1 && sep != ""
    ensures 1 <= |parts| <= n
    ensures Joined(parts, sep) == s
    decreases n
  {
    var i := Index(s, sep);
    if n == 1 || i < 0 then [s]
    else
      assert s == s[..i] + sep + s[i + |sep|..];
      [s[..i]] + SplitN(s[i + |sep|..], sep, n - 1)
  }

  function Joined(parts: seq<string>, sep: string): string {
    if parts == [] then ""
    else if |parts| == 1 then parts[0]
    else parts[0] + sep + Joined(parts[1..], sep)
  }

  predicate HasPrefix(s: string, p: string) {
    |p| <= |s| && s[..|p|] == p
  }

  predicate IsBracket(c: char) {
    c == '<' || c == '>'
  }

  /** Local part as it stands, domain in lower case. */
  function ParseEmail(email: string): (r: Result<(string, string)>)
    ensures r.Ok? ==> |r.value.0| + 1 + |r.value.1| <= |email| && '@' !in r.value.0 && r.value.0 != ""
  {
    var e := Trim(Trim(email, IsSpace), IsBracket);
    var i := Index(e, "@");
    if i <= 0 || i == |e| - 1 || '@' in e[i + 1..] then Err(BadAddress)
    else
      AtFirst(e);
      Ok((e[..i], ToLower(e[i + 1..])))
  }

  /** Nothing before the first occurrence is the character looked for. */
  lemma {:induction false} FirstOccurrence(s: string, c: char)
    ensures Index(s, [c]) < 0 ==> c !in s
    ensures Index(s, [c]) >= 0 ==> c !in s[..Index(s, [c])]
  {
    if s != "" {
      assert s == [s[0]] + s[1..];
      FirstOccurrence(s[1..], c);
      if s[0] != c && Index(s[1..], [c]) >= 0 {
        var r := Index(s[1..], [c]);
        assert s[..r + 1] == [s[0]] + s[1..][..r];
      }
    }
  }

  lemma AtFirst(e: string)
    ensures Index(e, "@") > 0 ==> '@' !in e[..Index(e, "@")]
  {
    FirstOccurrence(e, '@');
    assert "@" == ['@'];
  }

  // ---------------------------------------------------------------- timestamps

  /** Bitwise and, bit by bit from the lowest. */
  function And(x: nat, y: nat): (r: nat)
    ensures r <= x && r <= y
  {
    if x == 0 || y == 0 then 0 else (if x % 2 == 1 && y % 2 == 1 then 1 else 0) + 2 * And(x / 2, y / 2)
  }

  function Or(x: nat, y: nat): nat {
    if x == 0 && y == 0 then 0 else (if x % 2 == 1 || y % 2 == 1 then 1 else 0) + 2 * Or(x / 2, y / 2)
  }

  function ShiftRight(x: nat, n: nat): nat {
    if n == 0 then x else ShiftRight(x / 2, n - 1)
  }

  function ShiftLeft(x: nat, n: nat): nat
    decreases n
  {
    if n == 0 then x else ShiftLeft(2 * x, n - 1)
  }

  /** Two base32 characters for ten bits. */
  function Stamp(code: nat): string {
    [ALPHABET[And(ShiftRight(code, 5), 0x1F)], ALPHABET[And(code, 0x1F)]]
  }

  function GenerateTimestamp(day: nat): string {
    Stamp(day % 1024)
  }

  function CharIndex(s: string, c: char): (i: int)
    ensures -1 <= i < |s|
    ensures i >= 0 ==> s[i] == c
  {
    if s == "" then -1
    else if s[0] == c then 0
    else var r := CharIndex(s[1..], c); if r < 0 then -1 else r + 1
  }

  function ValidateTimestamp(cfg: Config, ts: string, day: nat): Result<()> {
    if |ts| != 2 then Err(BadTimestamp)
    else
      var hi, lo := CharIndex(ALPHABET, UpperChar(ts[0])), CharIndex(ALPHABET, UpperChar(ts[1]));
      if hi == -1 || lo == -1 then Err(BadTimestamp)
      else
        var code, today := Or(ShiftLeft(hi, 5), lo), day % 1024;
        var age := if today >= code then today - code else 1024 - code + today;
        if age > cfg.maxAge then Err(Expired) else Ok(())
  }

  // ---------------------------------------------------------------- forwarding

  function ReplaceDots(s: string): string {
    seq(|s|, i requires 0 <= i < |s| => if s[i] == '.' then '-' else s[i])
  }

  function BuildSrsDomain(cfg: Config, base: string, senderDomain: string): string {
    if !cfg.dynamic || senderDomain == "" then base else ReplaceDots(ToLower(senderDomain)) + "." + base
  }

  function Srs0Local(cfg: Config, ts: string, domain: string, local: string): string {
    var hash := cfg.hash(Joined([ts, domain, local], cfg.sep));
    "SRS0" + cfg.sep + hash + cfg.sep + ts + cfg.sep + domain + cfg.sep + local
  }

  function Srs1Local(cfg: Config, srs0Local: string, srs0Domain: string): string {
    var hash := cfg.hash(Joined([srs0Domain, srs0Local, ""], cfg.sep));
    "SRS1" + cfg.sep + hash + cfg.sep + srs0Domain + cfg.sep + srs0Local
  }

  predicate IsSrs0(cfg: Config, local: string) {
    HasPrefix(ToUpper(local), "SRS0" + cfg.sep)
  }

  predicate IsSrs1(cfg: Config, local: string) {
    HasPrefix(ToUpper(local), "SRS1" + cfg.sep)
  }

  /** base is the rewriting domain that the selection strategy picked, day the current day number. */
  function Forward(cfg: Config, sender: string, base: string, day: nat): Result<string>
    requires cfg.domains != [] && cfg.sep != ""
  {
    if sender == "" then Err(EmptyAddress)
    else
      match ParseEmail(sender)
      case Err(e) => Err(e)
      case Ok((local, domain)) =>
        if IsSrs0(cfg, local) then
          if Index(local, cfg.sep) < 0 then Err(BadFormat)
          else Ok(Srs1Local(cfg, local, domain) + "@" + cfg.domains[0])
        else if IsSrs1(cfg, local) then Ok(sender)
        else Ok(Srs0Local(cfg, GenerateTimestamp(day), domain, local) + "@" + BuildSrsDomain(cfg, base, domain))
  }

  // ---------------------------------------------------------------- reversing

  function ReverseSrs0(cfg: Config, local: string, day: nat): Result<string>
    requires cfg.sep != ""
  {
    var parts := SplitN(local, cfg.sep, 5);
    if |parts| != 5 then Err(BadFormat)
    else if ToUpper(parts[0]) != "SRS0" then Err(BadFormat)
    else
      match ValidateTimestamp(cfg, parts[2], day)
      case Err(e) => Err(e)
      case Ok(_) =>
        if parts[1] != cfg.hash(Joined([parts[2], parts[3], parts[4]], cfg.sep)) then Err(BadHash)
        else Ok(parts[4] + "@" + parts[3])
  }

  /** The pieces of an SRS1 local part are together shorter than it, so reversing nested addresses ends. */
  lemma NestedIsShorter(local: string, sep: string)
    requires sep != ""
    ensures
      var parts := SplitN(local, sep, 4);
      |parts| == 4 && |parts[0]| == 4 ==> |parts[3]| + 1 + |parts[2]| < |local|
  {
    var parts := SplitN(local, sep, 4);
    if |parts| == 4 {
      assert Joined(parts, sep) == parts[0] + sep + Joined(parts[1..], sep);
      assert Joined(parts[1..], sep) == parts[1] + sep + Joined(parts[2..], sep);
      assert parts[1..][1..] == parts[2..] && parts[2..][1..] == parts[3..];
      assert Joined(parts[2..], sep) == parts[2] + sep + parts[3];
    }
  }

  function ReverseSrs1(cfg: Config, local: string, day: nat): Result<string>
    requires cfg.sep != ""
    decreases |local|, 0
  {
    var parts := SplitN(local, cfg.sep, 4);
    if |parts| != 4 then Err(BadFormat)
    else if ToUpper(parts[0]) != "SRS1" then Err(BadFormat)
    else if parts[1] != cfg.hash(Joined([parts[2], parts[3], ""], cfg.sep)) then Err(BadHash)
    else
      NestedIsShorter(local, cfg.sep);
      Reverse(cfg, parts[3] + "@" + parts[2], day)
  }

  function Reverse(cfg: Config, address: string, day: nat): Result<string>
    requires cfg.sep != ""
    decreases |address|, 1
  {
    if address == "" then Err(EmptyAddress)
    else
      match ParseEmail(address)
      case Err(e) => Err(e)
      case Ok((local, _)) =>
        if IsSrs0(cfg, local) then ReverseSrs0(cfg, local, day)
        else if IsSrs1(cfg, local) then ReverseSrs1(cfg, local, day)
        else Err(NotSrs)
  }
}
