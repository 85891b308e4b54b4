/** Diagnostic-session commands: two normalisers, and the route lookup that demands agreement of all profiles. */
module Session {
  import opened Words
  import opened Catalog
  import Hex

  // ---------------------------------------------------------------------
  // Normalised commands
  // ---------------------------------------------------------------------

  predicate HasHexPrefix(s: string) {
    |s| >= 2 && s[0] == '0' && (s[1] == 'x' || s[1] == 'X')
  }

  function WithoutPrefix(s: string): string {
    if HasHexPrefix(s) then s[2..] else s
  }

  function Upper(c: char): char {
    if 'a' <= c <= 'f' then (c as int - 'a' as int + 'A' as int) as char else c
  }

  function UpperAll(s: string): (u: string)
    ensures |u| == |s|
    ensures forall i :: 0 <= i < |s| ==> u[i] == Upper(s[i])
  {
    seq(|s|, i requires 0 <= i < |s| => Upper(s[i]))
  }

  predicate IsSimpleCommand(s: string) {
    |s| == 4 && forall i :: 0 <= i < 4 ==> Hex.IsHexDigit(s[i])
  }

  /** The four upper-case digits of a two-byte command, or nothing when the text is no such command. */
  function Normalized(source: Option<string>): Option<string> {
    if source.Some? && IsSimpleCommand(WithoutPrefix(source.value)) then Some(UpperAll(WithoutPrefix(source.value)))
    else None
  }

  lemma UpperKeepsNibble(c: char)
    requires Hex.IsHexDigit(c)
    ensures Hex.NibbleOf(Upper(c)) == Hex.NibbleOf(c)
    ensures Hex.IsHexDigit(Upper(c)) && Upper(Upper(c)) == Upper(c) && !('a' <= Upper(c) <= 'f')
  {
  }

  lemma {:induction false} UpperKeepsDigits(s: string)
    requires forall i :: 0 <= i < |s| ==> Hex.IsHexDigit(s[i])
    ensures Hex.Nibbles(s).Some? && Hex.Reads(UpperAll(s), Hex.Nibbles(s).value) && |Hex.Nibbles(s).value| == |s|
  {
    if s != [] {
      var front, last := s[..|s| - 1], s[|s| - 1];
      UpperKeepsDigits(front);
      UpperKeepsNibble(last);
      assert UpperAll(s)[..|s| - 1] == UpperAll(front);
    }
  }

  /** A normalised command denotes the same two bytes as its source, and normalising again changes nothing. */
  lemma NormalizedMeansSame(s: string)
    requires Normalized(Some(s)).Some?
    ensures var v := Normalized(Some(s)).value;
            && Normalized(Some(v)) == Some(v)
            && Hex.Parsed(v) == Hex.Parsed(WithoutPrefix(s)) && Hex.Parsed(v).Some? && |Hex.Parsed(v).value| == 2
  {
    var body := WithoutPrefix(s);
    var v := UpperAll(body);
    forall i | 0 <= i < 4 ensures Hex.IsHexDigit(v[i]) && Upper(v[i]) == v[i] && v[i] != 'x' && v[i] != 'X' {
      UpperKeepsNibble(body[i]);
    }
    assert !HasHexPrefix(v);
    assert UpperAll(v) == v;
    UpperKeepsDigits(body);
  }

  /** The digit, in upper case. */
  predicate SpellsDigit(c: char, upper: char) {
    upper in "0123456789ABCDEF" && (c == upper || (upper in "ABCDEF" && c as int == upper as int + 32))
  }

  /** Four digits, perhaps behind 0x or 0X, and the same four in upper case. */
  predicate Spells(s: string, upper: string) {
    && |upper| == 4 && (|s| == 4 || (|s| == 6 && s[0] == '0' && s[1] in "xX"))
    && var digits := s[|s| - 4..]; forall i :: 0 <= i < 4 ==> SpellsDigit(digits[i], upper[i])
  }

  lemma SpellsDigitIff(c: char, upper: char)
    ensures SpellsDigit(c, upper) <==> Hex.IsHexDigit(c) && upper == Upper(c)
  {
    var all := "0123456789ABCDEF";
    if '0' <= upper <= '9' {
      assert all[upper as int - '0' as int] == upper;
    } else if 'A' <= upper <= 'F' {
      assert all[10 + upper as int - 'A' as int] == upper && "ABCDEF"[upper as int - 'A' as int] == upper;
    }
  }

  /** Exactly these texts are commands. */
  lemma NormalizedIff(s: string, upper: string)
    ensures Normalized(Some(s)) == Some(upper) <==> Spells(s, upper)
  {
    var body := WithoutPrefix(s);
    if |s| == 4 && |upper| == 4 {
      assert s[|s| - 4..] == s;
      SpellsDigitIff(s[1], upper[1]);
    }
    if |body| == 4 && |upper| == 4 {
      assert body == s[|s| - 4..];
      forall i | 0 <= i < 4
        ensures SpellsDigit(body[i], upper[i]) <==> Hex.IsHexDigit(body[i]) && upper[i] == Upper(body[i])
      {
        SpellsDigitIff(body[i], upper[i]);
      }
      assert upper == UpperAll(body) <==> forall i :: 0 <= i < 4 ==> upper[i] == Upper(body[i]);
    }
  }

  /** The catalogue's normaliser. */
  method NormalizeControlCommand(source: Option<string>, command: array<char>) returns (ok: bool)
    requires command.Length == 5
    modifies command
    ensures ok <==> Normalized(source).Some?
    ensures ok ==> command[..4] == Normalized(source).value && command[4] == NUL
  {
    command[0] := NUL;
    if source.None? {
      return false;
    }
    var cursor := source.value;
    if |cursor| >= 2 && cursor[0] == '0' && (cursor[1] == 'x' || cursor[1] == 'X') {
      cursor := cursor[2..];
    }
    if |cursor| != 4 {
      return false;
    }
    for index := 0 to 4
      invariant forall i :: 0 <= i < index ==> Hex.IsHexDigit(cursor[i]) && command[i] == Upper(cursor[i])
    {
      var value := cursor[index];
      var digit := '0' <= value <= '9';
      var upper := 'A' <= value <= 'F';
      var lower := 'a' <= value <= 'f';
      if !digit && !upper && !lower {
        return false;
      }
      command[index] := if lower then (value as int - 'a' as int + 'A' as int) as char else value;
    }
    command[4] := NUL;
    assert command[..4] == UpperAll(cursor);
    return true;
  }

  /** The C library's `toupper` in the C locale; its `isxdigit` is `Hex.IsDigitChar`. */
  function CtypeToUpper(c: char): char {
    if 'a' <= c <= 'z' then (c as int - 32) as char else c
  }

  lemma CtypeAgrees(c: char)
    ensures Hex.IsDigitChar(c) <==> Hex.IsHexDigit(c)
    ensures Hex.IsHexDigit(c) ==> CtypeToUpper(c) == Upper(c)
  {
    Hex.DigitCharIff(c);
  }

  /** The connection lifecycle's normaliser accepts the same strings and writes the same command. */
  method SimpleDiagnosticControlCommand(source: Option<string>, command: array<char>) returns (ok: bool)
    requires command.Length == 5
    modifies command
    ensures ok <==> Normalized(source).Some?
    ensures ok ==> command[..4] == Normalized(source).value && command[4] == NUL
  {
    if source.None? {
      return false;
    }
    var cursor := source.value;
    if |cursor| >= 2 && cursor[0] == '0' && (cursor[1] == 'x' || cursor[1] == 'X') {
      cursor := cursor[2..];
    }
    if |cursor| != 4 {
      return false;
    }
    for index := 0 to 4
      invariant forall i :: 0 <= i < index ==> Hex.IsHexDigit(cursor[i]) && command[i] == Upper(cursor[i])
    {
      CtypeAgrees(cursor[index]);
      if !Hex.IsDigitChar(cursor[index]) {
        return false;
      }
      command[index] := CtypeToUpper(cursor[index]);
    }
    command[4] := NUL;
    assert command[..4] == UpperAll(cursor);
    return true;
  }

  // ---------------------------------------------------------------------
  // Consensus of the profiles on a route
  // ---------------------------------------------------------------------

  function CommandOf(p: Profile, quit: bool): Option<string> {
    if quit then p.quitCommand else p.sessionCommand
  }

  /** The distinct normalised commands that the compatible profiles publish. */
  function Candidates(profiles: seq<Profile>, r: Route, quit: bool): set<string> {
    set p | p in profiles && Compatible(p, r) && Normalized(CommandOf(p, quit)).Some?
      :: Normalized(CommandOf(p, quit)).value
  }

  /** The candidates are what the profiles of the route and its protocol publish, sessions and quits apart. */
  lemma CandidateIff(profiles: seq<Profile>, r: Route, quit: bool, command: string)
    ensures command in Candidates(profiles, r, quit) <==>
            exists p :: p in profiles && p.routeAvailable && p.txCanId == r.txCanId && p.rxCanId == r.rxCanId
                        && p.extendedId == r.extendedId && (p.protocolKnown ==> p.protocol == r.protocol)
                        && var source := if quit then p.quitCommand else p.sessionCommand;
                           source.Some? && Spells(source.value, command)
  {
    forall p | p in profiles && CommandOf(p, quit).Some? {
      NormalizedIff(CommandOf(p, quit).value, command);
    }
  }

  /** The profiles of a route, in table order. */
  function OnRouteOnly(profiles: seq<Profile>, r: Route): seq<Profile> {
    if profiles == [] then []
    else
      OnRouteOnly(profiles[..|profiles| - 1], r)
      + (if OnRoute(profiles[|profiles| - 1], r) then [profiles[|profiles| - 1]] else [])
  }

  method ProfileCountForRoute(profiles: seq<Profile>, r: Route) returns (n: nat)
    ensures n == |OnRouteOnly(profiles, r)|
  {
    n := 0;
    for i := 0 to |profiles|
      invariant n == |OnRouteOnly(profiles[..i], r)|
    {
      assert profiles[..i + 1][..i] == profiles[..i];
      if OnRoute(profiles[i], r) {
        n := n + 1;
      }
    }
    assert profiles[..|profiles|] == profiles;
  }

  lemma {:induction false} OnRoutePrefix(profiles: seq<Profile>, r: Route, i: nat)
    requires i <= |profiles|
    ensures OnRouteOnly(profiles[..i], r) <= OnRouteOnly(profiles, r)
  {
    if i < |profiles| {
      assert profiles[..|profiles| - 1][..i] == profiles[..i];
      OnRoutePrefix(profiles[..|profiles| - 1], r, i);
    } else {
      assert profiles[..i] == profiles;
    }
  }

  method ProfileAtForRoute(profiles: seq<Profile>, r: Route, wanted: nat) returns (found: Option<Profile>)
    ensures found.Some? <==> wanted < |OnRouteOnly(profiles, r)|
    ensures found.Some? ==> found.value == OnRouteOnly(profiles, r)[wanted]
  {
    var n := 0;
    for i := 0 to |profiles|
      invariant n == |OnRouteOnly(profiles[..i], r)| <= wanted
    {
      assert profiles[..i + 1][..i] == profiles[..i];
      if !OnRoute(profiles[i], r) {
        continue;
      }
      if n == wanted {
        OnRoutePrefix(profiles, r, i + 1);
        assert OnRouteOnly(profiles[..i + 1], r)[n] == profiles[i];
        return Some(profiles[i]);
      }
      n := n + 1;
    }
    assert profiles[..|profiles|] == profiles;
    return None;
  }

  lemma {:induction false} OnRouteMembers(profiles: seq<Profile>, r: Route)
    ensures forall p :: p in OnRouteOnly(profiles, r) <==> p in profiles && OnRoute(p, r)
  {
    if profiles != [] {
      OnRouteMembers(profiles[..|profiles| - 1], r);
      assert profiles == profiles[..|profiles| - 1] + [profiles[|profiles| - 1]];
    }
  }

  lemma CandidatesOnRoute(profiles: seq<Profile>, r: Route, quit: bool)
    ensures Candidates(OnRouteOnly(profiles, r), r, quit) == Candidates(profiles, r, quit)
  {
    OnRouteMembers(profiles, r);
  }

  function AtMostOne(command: Option<string>): set<string> {
    if command.Some? then {command.value} else {}
  }

  function CandidateOf(p: Profile, r: Route, quit: bool): Option<string> {
    if Compatible(p, r) then Normalized(CommandOf(p, quit)) else None
  }

  /** The commands of the first `n` profiles. */
  function CandidatesUpto(profiles: seq<Profile>, r: Route, quit: bool, n: nat): set<string>
    requires n <= |profiles|
  {
    if n == 0 then {}
    else CandidatesUpto(profiles, r, quit, n - 1) + AtMostOne(CandidateOf(profiles[n - 1], r, quit))
  }

  lemma CandidatesStep(profiles: seq<Profile>, p: Profile, r: Route, quit: bool)
    ensures Candidates(profiles + [p], r, quit) == Candidates(profiles, r, quit) + AtMostOne(CandidateOf(p, r, quit))
  {
  }

  lemma {:induction false} CandidatesAreUpto(profiles: seq<Profile>, r: Route, quit: bool, n: nat)
    requires n <= |profiles|
    ensures CandidatesUpto(profiles, r, quit, n) == Candidates(profiles[..n], r, quit)
  {
    if n > 0 {
      CandidatesAreUpto(profiles, r, quit, n - 1);
      CandidatesStep(profiles[..n - 1], profiles[n - 1], r, quit);
      assert profiles[..n] == profiles[..n - 1] + [profiles[n - 1]];
    }
  }

  lemma AllCandidates(profiles: seq<Profile>, r: Route, quit: bool)
    ensures var all := OnRouteOnly(profiles, r);
            CandidatesUpto(all, r, quit, |all|) == Candidates(profiles, r, quit)
  {
    var all := OnRouteOnly(profiles, r);
    CandidatesAreUpto(all, r, quit, |all|);
    assert all[..|all|] == all;
    CandidatesOnRoute(profiles, r, quit);
  }

  lemma {:induction false} CandidatesGrow(profiles: seq<Profile>, r: Route, quit: bool, i: nat, n: nat)
    requires i <= n <= |profiles|
    ensures CandidatesUpto(profiles, r, quit, i) <= CandidatesUpto(profiles, r, quit, n)
  {
    if i < n {
      CandidatesGrow(profiles, r, quit, i, n - 1);
    }
  }

  lemma TwoCandidatesDisagree(candidates: set<string>, a: string, b: string)
    requires a in candidates && b in candidates && a != b
    ensures |candidates| != 1
  {
    assert candidates == {a} + (candidates - {a});
    assert b in candidates - {a};
  }

  lemma Disagreement(profiles: seq<Profile>, r: Route, quit: bool, i: nat, a: string, b: string)
    requires i <= |OnRouteOnly(profiles, r)| && a != b
    requires CandidatesUpto(OnRouteOnly(profiles, r), r, quit, i) == {a} + {b}
    ensures |Candidates(profiles, r, quit)| != 1
  {
    var all := OnRouteOnly(profiles, r);
    CandidatesGrow(all, r, quit, i, |all|);
    AllCandidates(profiles, r, quit);
    assert a in {a} + {b} && b in {a} + {b};
    TwoCandidatesDisagree(Candidates(profiles, r, quit), a, b);
  }

  /** The normalised command that profile number `index` of the route publishes, if it suits the route and has one. */
  method CandidateAt(profiles: seq<Profile>, r: Route, quit: bool, index: nat) returns (normal: Option<string>)
    requires index < |OnRouteOnly(profiles, r)|
    ensures normal == CandidateOf(OnRouteOnly(profiles, r)[index], r, quit)
  {
    var profile := ProfileAtForRoute(profiles, r, index);
    if profile.None? || !Compatible(profile.value, r) {
      return None;
    }
    var candidate := new char[5];
    var ok := NormalizeControlCommand(CommandOf(profile.value, quit), candidate);
    normal := if ok then Some(candidate[..4]) else None;
  }

  /** The one command that all matching profiles agree on. */
  method ResolveCommand(profiles: seq<Profile>, r: Route, quit: bool) returns (resolved: Option<string>)
    ensures resolved.Some? <==> |Candidates(profiles, r, quit)| == 1
    ensures resolved.Some? ==> Candidates(profiles, r, quit) == {resolved.value}
  {
    var count := ProfileCountForRoute(profiles, r);
    ghost var all := OnRouteOnly(profiles, r);
    resolved := None;
    for index := 0 to count
      invariant CandidatesUpto(all, r, quit, index) == AtMostOne(resolved)
    {
      var normal := CandidateAt(profiles, r, quit, index);
      if normal.None? {
        continue;
      }
      if resolved.None? {
        resolved := normal;
      } else if resolved.value != normal.value {
        Disagreement(profiles, r, quit, index + 1, resolved.value, normal.value);
        return None;
      }
    }
    AllCandidates(profiles, r, quit);
  }

  /** The lookup succeeds exactly when the matching profiles publish one command, and then returns that one. */
  method RouteControlCommand(t: Tables, r: Route, quit: bool, buffer: array<char>) returns (ok: bool)
    modifies buffer
    ensures ok <==> buffer.Length >= 5 && |Candidates(t.profiles, r, quit)| == 1
    ensures ok ==> Candidates(t.profiles, r, quit) == {buffer[..4]} && buffer[4] == NUL
    ensures !ok && buffer.Length != 0 ==> buffer[0] == NUL
  {
    if buffer.Length != 0 {
      buffer[0] := NUL;
    }
    if buffer.Length < 5 {
      return false;
    }
    var resolved := ResolveCommand(t.profiles, r, quit);
    if resolved.None? {
      return false;
    }
    var command := resolved.value;
    assert |command| == 4 by {
      assert command in Candidates(t.profiles, r, quit);
    }
    forall i | 0 <= i < 4 {
      buffer[i] := command[i];
    }
    buffer[4] := NUL;
    assert buffer[..4] == command;
    return true;
  }

  /** The answer does not depend on the order of the profile table. */
  lemma ConsensusIgnoresOrder(a: seq<Profile>, b: seq<Profile>, r: Route, quit: bool)
    requires multiset(a) == multiset(b)
    ensures Candidates(a, r, quit) == Candidates(b, r, quit)
  {
    forall p ensures p in a <==> p in b {
      assert p in a <==> p in multiset(a);
      assert p in b <==> p in multiset(b);
    }
  }
}
