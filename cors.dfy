/** The origin callback that the Express server hands to the `cors` middleware
    (backend/server.js). */
module Cors {
  import opened Types
  import JsString

  /** An element of `allowedOrigins`: a string literal, or the one RegExp
      literal `/^http:\/\/192\.168\.\d+\.\d+:3000$/` meant for hosts on the LAN. */
  datatype OriginEntry = Exact(origin: string) | LanPattern

  const AllowedOrigins: seq<OriginEntry> :=
    [Exact("http://localhost:3000"), LanPattern, Exact("https://votexpress-fron.onrender.com")]

  const RejectionMessage: string := "The CORS policy does not allow this origin."

  /** `callback(null, true)` versus `callback(new Error(message), false)`. */
  datatype Verdict = Allow | Deny(message: string)

  /** `entries.indexOf(origin)`: the first position holding an element `===` to
      the origin string, or -1. A RegExp object is never `===` to a string. */
  function IndexOf(entries: seq<OriginEntry>, origin: string): (i: int)
    ensures -1 <= i < |entries|
    ensures i >= 0 ==> entries[i] == Exact(origin)
    ensures i >= 0 ==> forall k :: 0 <= k < i ==> entries[k] != Exact(origin)
    ensures i == -1 <==> forall k :: 0 <= k < |entries| ==> entries[k] != Exact(origin)
  {
    if entries == [] then -1
    else if entries[0] == Exact(origin) then 0
    else
      var j := IndexOf(entries[1..], origin);
      if j == -1 then -1 else j + 1
  }

  /** The origin callback as written: a missing (or empty) origin passes, any
      other origin passes exactly when it equals one of the two string entries. */
  function OriginCallback(origin: Option<string>): (v: Verdict)
    ensures v == Allow <==>
      || origin.None? || origin.value == ""
      || origin.value == "http://localhost:3000"
      || origin.value == "https://votexpress-fron.onrender.com"
    ensures v != Allow ==> v == Deny(RejectionMessage)
  {
    if origin.None? || origin.value == "" then Allow
    else if IndexOf(AllowedOrigins, origin.value) == -1 then Deny(RejectionMessage)
    else Allow
  }

  predicate IsDigit(c: char)
  {
    '0' <= c <= '9'
  }

  /** The length of the longest all-digit prefix (`\d+` matched greedily). */
  function LeadingDigits(s: string): (n: nat)
    ensures n <= |s|
    ensures forall i :: 0 <= i < n ==> IsDigit(s[i])
    ensures n == |s| || !IsDigit(s[n])
  {
    if s != [] && IsDigit(s[0]) then 1 + LeadingDigits(s[1..]) else 0
  }

  const LanPrefix: string := "http://192.168."

  /** `/^http:\/\/192\.168\.\d+\.\d+:3000$/.test(s)`. Neither `.` nor `:` is a
      digit, so greedy matching of each `\d+` decides the match. */
  predicate MatchesLanPattern(s: string)
  {
    JsString.StartsWith(s, LanPrefix) && LanRest(s[|LanPrefix|..])
  }

  /** What the pattern demands after `http://192.168.`: `\d+\.\d+:3000`. */
  predicate LanRest(r: string)
  {
    var a := LeadingDigits(r);
    && 0 < a < |r| && r[a] == '.'
    && var r2 := r[a + 1..];
       var b := LeadingDigits(r2);
       0 < b && r2[b..] == ":3000"
  }

  predicate AllDigits(s: string)
  {
    forall i :: 0 <= i < |s| ==> IsDigit(s[i])
  }

  /** The greedy digit run of a digit string followed by a non-digit is
      exactly that digit string. */
  lemma {:induction false} LeadingDigitsOf(d: string, rest: string)
    requires AllDigits(d)
    requires rest == [] || !IsDigit(rest[0])
    ensures LeadingDigits(d + rest) == |d|
    decreases |d|
  {
    if d != [] {
      assert (d + rest)[1..] == d[1..] + rest;
      LeadingDigitsOf(d[1..], rest);
    } else {
      assert d + rest == rest;
    }
  }

  /** What follows the prefix in an admitted origin: a digit run, a dot, a
      digit run and `:3000`. */
  lemma LanRestParts(r: string) returns (d1: string, d2: string)
    requires LanRest(r)
    ensures d1 != [] && d2 != [] && AllDigits(d1) && AllDigits(d2)
    ensures r == d1 + ("." + (d2 + ":3000"))
  {
    var a := LeadingDigits(r);
    var r2 := r[a + 1..];
    var b := LeadingDigits(r2);
    d1, d2 := r[..a], r2[..b];
    assert r2 == d2 + ":3000";
    assert r == d1 + ("." + r2);
  }

  /** The parts of an origin the pattern admits. */
  lemma LanPatternParts(s: string) returns (d1: string, d2: string)
    requires MatchesLanPattern(s)
    ensures d1 != [] && d2 != [] && AllDigits(d1) && AllDigits(d2)
    ensures s == LanPrefix + d1 + "." + d2 + ":3000"
  {
    var r := s[|LanPrefix|..];
    d1, d2 := LanRestParts(r);
    assert s == LanPrefix + r;
    LanShapeNested(d1, d2);
  }

  /** A digit run, a dot, a digit run and `:3000` is what the pattern demands
      after the prefix. */
  lemma LanRestOf(d1: string, d2: string)
    requires d1 != [] && d2 != [] && AllDigits(d1) && AllDigits(d2)
    ensures LanRest(d1 + ("." + (d2 + ":3000")))
  {
    var r2 := d2 + ":3000";
    var r := d1 + ("." + r2);
    LeadingDigitsOf(d1, "." + r2);
    assert r[|d1|..] == "." + r2;
    assert r[|d1| + 1..] == r2;
    LeadingDigitsOf(d2, ":3000");
    assert r2[|d2|..] == ":3000";
  }

  /** The prefix followed by what the pattern demands after it is admitted. */
  lemma PrefixedLanRest(r: string)
    requires LanRest(r)
    ensures MatchesLanPattern(LanPrefix + r)
  {
    var s := LanPrefix + r;
    assert s[|LanPrefix|..] == r;
    assert JsString.StartsWith(s, LanPrefix);
  }

  /** The shape of an admitted origin, written left to right or nested. */
  lemma LanShapeNested(d1: string, d2: string)
    ensures LanPrefix + d1 + "." + d2 + ":3000" == LanPrefix + (d1 + ("." + (d2 + ":3000")))
  {
  }

  /** Every origin of that shape is admitted. */
  lemma LanPatternAdmits(d1: string, d2: string)
    requires d1 != [] && d2 != [] && AllDigits(d1) && AllDigits(d2)
    ensures MatchesLanPattern(LanPrefix + d1 + "." + d2 + ":3000")
  {
    LanRestOf(d1, d2);
    PrefixedLanRest(d1 + ("." + (d2 + ":3000")));
    LanShapeNested(d1, d2);
  }

  /** The pattern admits exactly `http://192.168.` followed by a nonempty digit
      run, a dot, a nonempty digit run and `:3000`. */
  lemma LanPatternMeaning(s: string)
    ensures MatchesLanPattern(s) <==>
      exists d1, d2 :: d1 != [] && d2 != [] && AllDigits(d1) && AllDigits(d2)
        && s == LanPrefix + d1 + "." + d2 + ":3000"
  {
    if MatchesLanPattern(s) {
      var d1, d2 := LanPatternParts(s);
    }
    if exists d1, d2 :: d1 != [] && d2 != [] && AllDigits(d1) && AllDigits(d2)
        && s == LanPrefix + d1 + "." + d2 + ":3000" {
      var d1, d2 :| d1 != [] && d2 != [] && AllDigits(d1) && AllDigits(d2)
        && s == LanPrefix + d1 + "." + d2 + ":3000";
      LanPatternAdmits(d1, d2);
    }
  }

  /** How the `cors` package itself tests an array element: `===` for a string,
      `RegExp.prototype.test` for a RegExp. */
  function EntryMatches(e: OriginEntry, origin: string): (b: bool)
    ensures e.Exact? ==> (b <==> IndexOf([e], origin) == 0)
  {
    match e
    case Exact(o) => o == origin
    case LanPattern => MatchesLanPattern(origin)
  }

  function AnyEntryMatches(entries: seq<OriginEntry>, origin: string): (b: bool)
    ensures b <==> exists k :: 0 <= k < |entries| && EntryMatches(entries[k], origin)
  {
    if entries == [] then false
    else EntryMatches(entries[0], origin) || AnyEntryMatches(entries[1..], origin)
  }

  /** The callback as evidently intended: every entry, the RegExp included, is
      matched against the origin. */
  function IntendedOriginCallback(origin: Option<string>): (v: Verdict)
    ensures v != Allow ==> v == Deny(RejectionMessage)
  {
    if origin.None? || origin.value == "" then Allow
    else if AnyEntryMatches(AllowedOrigins, origin.value) then Allow
    else Deny(RejectionMessage)
  }

  /** The intended callback admits what the written one admits, plus exactly
      the origins the LAN pattern describes. */
  lemma IntendedExtendsWritten(origin: Option<string>)
    ensures IntendedOriginCallback(origin) == Allow <==>
      OriginCallback(origin) == Allow || (origin.Some? && MatchesLanPattern(origin.value))
  {
    if origin.Some? && origin.value != "" {
      var o := origin.value;
      var es := AllowedOrigins;
      if EntryMatches(es[0], o) || EntryMatches(es[1], o) || EntryMatches(es[2], o) {
        assert AnyEntryMatches(es, o);
      }
      if MatchesLanPattern(o) {
        assert EntryMatches(es[1], o);
      }
    }
  }

  /** A phone on the LAN at 192.168.1.5 matches the pattern its authors listed,
      yet the callback as written rejects it, while the intended one admits it. */
  lemma LanOriginRejectedAsWritten()
    ensures MatchesLanPattern("http://192.168.1.5:3000")
    ensures OriginCallback(Some("http://192.168.1.5:3000")) == Deny(RejectionMessage)
    ensures IntendedOriginCallback(Some("http://192.168.1.5:3000")) == Allow
  {
    var s := "http://192.168.1.5:3000";
    assert s == LanPrefix + "1" + "." + "5" + ":3000";
    LanPatternAdmits("1", "5");
    assert |s| == 23;
    IntendedExtendsWritten(Some(s));
  }
}
