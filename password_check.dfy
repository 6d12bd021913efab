/** Password strength classifier of the front end: a password is Short, Common,
    Weak, Ok or Strong, decided by its length, a fixed list of common fragments
    and the number of character classes it uses. */
module PasswordCheck {

  datatype PasswordStrength = Short | Common | Weak | Ok | Strong

  /** The minimum accepted length. */
  function MinimumLength(): nat { 7 }

  predicate StartsWith(s: string, prefix: string) {
    |prefix| <= |s| && s[..|prefix|] == prefix
  }

  predicate OccursAt(s: string, fragment: string, i: nat) {
    i + |fragment| <= |s| && s[i..i + |fragment|] == fragment
  }

  predicate Contains(s: string, fragment: string) {
    exists i: nat :: i + |fragment| <= |s| && OccursAt(s, fragment, i)
  }

  /** The unanchored alternatives of the common-password pattern; only "passw" is anchored. */
  const AnchoredFragment: string := "passw"
  const FloatingFragments: seq<string> :=
    ["12345", "09876", "qwert", "abc123", "asdfg", "zxcvb", "footb", "baseb", "drago"]

  predicate IsPasswordCommon(password: string) {
    StartsWith(password, AnchoredFragment) ||
    exists k :: 0 <= k < |FloatingFragments| && Contains(password, FloatingFragments[k])
  }

  /** Any of the nine floating fragments makes a password common wherever it occurs,
      "passw" only at the start: the same letters later in the password do not count. */
  lemma CommonFragments(prefix: string, suffix: string, k: nat)
    requires k < |FloatingFragments|
    ensures IsPasswordCommon(prefix + FloatingFragments[k] + suffix)
    ensures IsPasswordCommon(AnchoredFragment + suffix)
    ensures !IsPasswordCommon("xpassw")
  {
    var f := FloatingFragments[k];
    var s := prefix + f + suffix;
    assert s[|prefix|..|prefix| + |f|] == f;
    assert OccursAt(s, f, |prefix|);
    assert (AnchoredFragment + suffix)[..|AnchoredFragment|] == AnchoredFragment;
    forall j | 0 <= j < |FloatingFragments| ensures !Contains("xpassw", FloatingFragments[j]) {
      forall i: nat | i + |FloatingFragments[j]| <= 6 ensures !OccursAt("xpassw", FloatingFragments[j], i) {
        assert "xpassw"[i] != FloatingFragments[j][0];
      }
    }
    assert "xpassw"[0] != AnchoredFragment[0];
  }

  datatype CharClass = Lower | Upper | Digit | Symbol

  predicate IsLower(c: char) { 'a' <= c <= 'z' }
  predicate IsUpper(c: char) { 'A' <= c <= 'Z' }
  predicate IsDigit(c: char) { '0' <= c <= '9' }

  predicate InClass(c: char, cls: CharClass) {
    match cls
    case Lower => IsLower(c)
    case Upper => IsUpper(c)
    case Digit => IsDigit(c)
    case Symbol => !IsLower(c) && !IsUpper(c) && !IsDigit(c)
  }

  /** Some character of the password lies in the class (one regular-expression test). */
  predicate Uses(password: string, cls: CharClass) {
    exists i :: 0 <= i < |password| && InClass(password[i], cls)
  }

  /** The four classes in the order the source tests them. */
  const AllClasses: seq<CharClass> := [Lower, Upper, Digit, Symbol]

  /** The classes among `cs` that the password uses. */
  function UsedAmong(password: string, cs: seq<CharClass>): set<CharClass> {
    set cls | cls in cs && Uses(password, cls)
  }

  /** The classes the password uses: the reference meaning of the class counter. */
  function UsedClasses(password: string): set<CharClass> {
    UsedAmong(password, AllClasses)
  }

  function Bit(b: bool): nat { if b then 1 else 0 }

  /** One test after another over `cs`, each adding one when it succeeds. */
  function CountAmong(password: string, cs: seq<CharClass>): nat {
    if cs == [] then 0 else CountAmong(password, cs[..|cs| - 1]) + Bit(Uses(password, cs[|cs| - 1]))
  }

  lemma {:induction false} CountAmongIsCardinality(password: string, cs: seq<CharClass>)
    requires forall i, j :: 0 <= i < j < |cs| ==> cs[i] != cs[j]
    ensures CountAmong(password, cs) == |UsedAmong(password, cs)|
  {
    if cs != [] {
      var init, last := cs[..|cs| - 1], cs[|cs| - 1];
      assert cs == init + [last];
      CountAmongIsCardinality(password, init);
      assert last !in init by {
        forall i | 0 <= i < |init| ensures init[i] != last {
          assert init[i] == cs[i];
        }
      }
      forall c ensures c in cs <==> c in init || c == last {
      }
      if Uses(password, last) {
        assert UsedAmong(password, cs) == UsedAmong(password, init) + {last};
      } else {
        assert UsedAmong(password, cs) == UsedAmong(password, init);
      }
    }
  }

  /** The counter of satisfied character classes, incremented once per successful test. */
  function ClassCount(password: string): (n: nat)
    ensures n == |UsedClasses(password)|
    ensures n <= 4
  {
    var l, u, d, s := Uses(password, Lower), Uses(password, Upper), Uses(password, Digit), Uses(password, Symbol);
    CountAmongIsCardinality(password, AllClasses);
    assert AllClasses[..3] == [Lower, Upper, Digit];
    assert AllClasses[..3][..2] == [Lower, Upper];
    assert AllClasses[..3][..2][..1] == [Lower];
    assert CountAmong(password, [Lower]) == Bit(l);
    assert CountAmong(password, [Lower, Upper]) == Bit(l) + Bit(u);
    assert CountAmong(password, [Lower, Upper, Digit]) == Bit(l) + Bit(u) + Bit(d);
    Bit(l) + Bit(u) + Bit(d) + Bit(s)
  }

  /** Length first, then the common list, then the number of classes. */
  function CheckPasswordStrength(password: string): (r: PasswordStrength)
    ensures |password| < MinimumLength() ==> r == Short
    ensures r == Short <==> |password| < MinimumLength()
    ensures r == Common <==> |password| >= MinimumLength() && IsPasswordCommon(password)
    ensures r == Weak <==> |password| >= MinimumLength() && !IsPasswordCommon(password) && |UsedClasses(password)| < 3
    ensures r == Ok <==> |password| >= MinimumLength() && !IsPasswordCommon(password) && |UsedClasses(password)| == 3
    ensures r == Strong <==> |password| >= MinimumLength() && !IsPasswordCommon(password) && |UsedClasses(password)| == 4
  {
    var verifElements := ClassCount(password);
    if |password| < MinimumLength() then Short
    else if IsPasswordCommon(password) then Common
    else if verifElements < 3 then Weak
    else if verifElements == 3 then Ok
    else Strong
  }
}
