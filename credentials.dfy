/**
 * Credential generation of the registration page: the 12-character password
 * builder with its in-place shuffle, the fixed list of fallback passwords, and
 * the `testuser_<8 chars>@test.com` address.
 *
 * Every `Math.random()` draw is an input: `(int) (Math.random() * n)` is an
 * index below `n`, and `ValidDraws` says exactly that of each draw.
 */
module Credentials {

  /** `n` consecutive characters starting at `first`, in code order. */
  function CharRange(first: char, n: nat): (r: string)
    requires first as int + n <= 0xD800
    ensures |r| == n
    ensures forall i :: 0 <= i < n ==> r[i] as int == first as int + i
  {
    seq(n, i requires 0 <= i < n => (first as int + i) as char)
  }

  /** A character inside the range is one of its characters. */
  lemma InCharRange(first: char, n: nat, c: char)
    requires first as int + n <= 0xD800 && first <= c && (c as int) < first as int + n
    ensures c in CharRange(first, n)
  {
    assert CharRange(first, n)[c as int - first as int] == c;
  }

  /** `"ABCDEFGHIJKLMNOPQRSTUVWXYZ"` */
  const Uppercase: string := CharRange('A', 26)
  /** `"abcdefghijklmnopqrstuvwxyz"` */
  const Lowercase: string := CharRange('a', 26)
  /** `"0123456789"` */
  const Numbers: string := CharRange('0', 10)
  const Special: string := "!@#$%^&*"
  const AllChars: string := Uppercase + Lowercase + Numbers + Special

  /** The length the builder fills the password up to. */
  const PasswordLength: nat := 12

  /** Some character of `p` belongs to the class `cls`. */
  predicate HasCharFrom(p: string, cls: string)
  {
    exists i :: 0 <= i < |p| && p[i] in cls
  }

  /** The registration form's policy: length at least 12 and one character of each class. */
  predicate MeetsPolicy(p: string)
  {
    && |p| >= PasswordLength
    && HasCharFrom(p, Uppercase)
    && HasCharFrom(p, Lowercase)
    && HasCharFrom(p, Numbers)
    && HasCharFrom(p, Special)
  }

  /** Every character of `p` comes from the union alphabet. */
  predicate OverAllChars(p: string)
  {
    forall i :: 0 <= i < |p| ==> p[i] in AllChars
  }

  /**
   * The random draws of one call of the builder: one index per class, one per
   * filler position `i = 4..11`, and one swap partner per position of the array.
   */
  datatype PasswordDraws = PasswordDraws(
    upper: nat, lower: nat, digit: nat, special: nat,
    fill: seq<nat>,
    swaps: seq<nat>)

  predicate ValidDraws(d: PasswordDraws)
  {
    && d.upper < |Uppercase| && d.lower < |Lowercase|
    && d.digit < |Numbers| && d.special < |Special|
    && |d.fill| == PasswordLength - 4
    && (forall k :: 0 <= k < |d.fill| ==> d.fill[k] < |AllChars|)
    && |d.swaps| == PasswordLength
    && (forall k :: 0 <= k < |d.swaps| ==> d.swaps[k] < PasswordLength)
  }

  /** The four class-seeded characters appended first. */
  function ClassSeeds(d: PasswordDraws): (r: string)
    requires ValidDraws(d)
    ensures |r| == 4
    ensures r[0] in Uppercase && r[1] in Lowercase && r[2] in Numbers && r[3] in Special
  {
    [Uppercase[d.upper], Lowercase[d.lower], Numbers[d.digit], Special[d.special]]
  }

  /** The filler characters drawn from the union alphabet. */
  function Filler(fill: seq<nat>): (r: string)
    requires forall k :: 0 <= k < |fill| ==> fill[k] < |AllChars|
    ensures |r| == |fill| && OverAllChars(r)
    decreases |fill|
  {
    if fill == [] then [] else Filler(fill[..|fill| - 1]) + [AllChars[fill[|fill| - 1]]]
  }

  /** The password before the shuffle: the seeds, then the filler. */
  function Unshuffled(d: PasswordDraws): string
    requires ValidDraws(d)
  {
    ClassSeeds(d) + Filler(d.fill)
  }

  /** One step of the shuffle: `temp = a[i]; a[i] = a[j]; a[j] = temp`. */
  function Swap(s: string, i: nat, j: nat): (r: string)
    requires i < |s| && j < |s|
    ensures |r| == |s| && multiset(r) == multiset(s)
  {
    s[i := s[j]][j := s[i]]
  }

  /** `s` after the first `n` iterations of the shuffle loop. */
  function ShuffledUpTo(s: string, swaps: seq<nat>, n: nat): (r: string)
    requires n <= |s| && n <= |swaps|
    requires forall k :: 0 <= k < |swaps| ==> swaps[k] < |s|
    ensures |r| == |s|
    decreases n
  {
    if n == 0 then s else Swap(ShuffledUpTo(s, swaps, n - 1), n - 1, swaps[n - 1])
  }

  /** However many swaps were made, the shuffle only permutes the characters. */
  lemma {:induction false} ShuffledUpToPermutes(s: string, swaps: seq<nat>, n: nat)
    requires n <= |s| && n <= |swaps|
    requires forall k :: 0 <= k < |swaps| ==> swaps[k] < |s|
    ensures multiset(ShuffledUpTo(s, swaps, n)) == multiset(s)
    decreases n
  {
    if n > 0 {
      ShuffledUpToPermutes(s, swaps, n - 1);
    }
  }

  /** The password `generateStrongPassword` returns for the draws `d`. */
  function StrongPassword(d: PasswordDraws): string
    requires ValidDraws(d)
  {
    ShuffledUpTo(Unshuffled(d), d.swaps, |d.swaps|)
  }

  /** A permutation keeps every character class that was present. */
  lemma PermutationKeepsClass(s: string, t: string, cls: string)
    requires multiset(s) == multiset(t) && HasCharFrom(s, cls)
    ensures HasCharFrom(t, cls)
  {
    var i :| 0 <= i < |s| && s[i] in cls;
    assert s[i] in multiset(t);
    var j :| 0 <= j < |t| && t[j] == s[i];
  }

  /** A permutation keeps the alphabet. */
  lemma PermutationKeepsAlphabet(s: string, t: string)
    requires multiset(s) == multiset(t) && OverAllChars(s)
    ensures OverAllChars(t)
  {
    forall j | 0 <= j < |t| ensures t[j] in AllChars {
      assert t[j] in multiset(s);
      var i :| 0 <= i < |s| && s[i] == t[j];
    }
  }

  /** Each seeded character belongs to the union alphabet too. */
  lemma SeedsOverAllChars(d: PasswordDraws)
    requires ValidDraws(d)
    ensures OverAllChars(ClassSeeds(d))
  {
    var r := ClassSeeds(d);
    assert AllChars == Uppercase + (Lowercase + Numbers + Special);
    assert AllChars == (Uppercase + Lowercase) + Numbers + Special;
    assert AllChars == (Uppercase + Lowercase + Numbers) + Special;
    assert AllChars == Uppercase + Lowercase + (Numbers + Special);
  }

  lemma ConcatOverAllChars(a: string, b: string)
    requires OverAllChars(a) && OverAllChars(b)
    ensures OverAllChars(a + b)
  {
    forall i | 0 <= i < |a + b| ensures (a + b)[i] in AllChars {
      if i >= |a| {
        assert (a + b)[i] == b[i - |a|];
      }
    }
  }

  /**
   * The generated password has length exactly 12, is drawn from the union
   * alphabet and, since the four seeded characters survive the shuffle,
   * meets the policy.
   */
  lemma StrongPasswordMeetsPolicy(d: PasswordDraws)
    requires ValidDraws(d)
    ensures |StrongPassword(d)| == PasswordLength
    ensures MeetsPolicy(StrongPassword(d))
    ensures OverAllChars(StrongPassword(d))
    ensures multiset(StrongPassword(d)) == multiset(Unshuffled(d))
  {
    var u := Unshuffled(d);
    var p := StrongPassword(d);
    ShuffledUpToPermutes(u, d.swaps, |d.swaps|);
    assert u[0] in Uppercase && u[1] in Lowercase && u[2] in Numbers && u[3] in Special;
    PermutationKeepsClass(u, p, Uppercase);
    PermutationKeepsClass(u, p, Lowercase);
    PermutationKeepsClass(u, p, Numbers);
    PermutationKeepsClass(u, p, Special);
    SeedsOverAllChars(d);
    ConcatOverAllChars(ClassSeeds(d), Filler(d.fill));
    PermutationKeepsAlphabet(u, p);
  }

  /** The shuffle loop of `generateStrongPassword`, on the array in place. */
  method Shuffle(a: array<char>, swaps: seq<nat>)
    requires |swaps| == a.Length
    requires forall k :: 0 <= k < |swaps| ==> swaps[k] < a.Length
    modifies a
    ensures a[..] == ShuffledUpTo(old(a[..]), swaps, a.Length)
    ensures multiset(a[..]) == multiset(old(a[..]))
  {
    for i := 0 to a.Length
      invariant a[..] == ShuffledUpTo(old(a[..]), swaps, i)
    {
      var randomIndex := swaps[i];
      var temp := a[i];
      a[i] := a[randomIndex];
      a[randomIndex] := temp;
    }
    ShuffledUpToPermutes(old(a[..]), swaps, a.Length);
  }

  /** `generateStrongPassword`: seed the four classes, fill to 12, shuffle. */
  method GenerateStrongPassword(d: PasswordDraws) returns (pw: string)
    requires ValidDraws(d)
    ensures pw == StrongPassword(d)
    ensures |pw| == PasswordLength && MeetsPolicy(pw) && OverAllChars(pw)
  {
    var password := [Uppercase[d.upper], Lowercase[d.lower], Numbers[d.digit], Special[d.special]];
    for i := 4 to PasswordLength
      invariant password == ClassSeeds(d) + Filler(d.fill[..i - 4])
    {
      assert d.fill[..i - 3][..i - 4] == d.fill[..i - 4];
      password := password + [AllChars[d.fill[i - 4]]];
    }
    assert d.fill[..PasswordLength - 4] == d.fill;
    assert password == Unshuffled(d);
    var passwordArray := new char[|password|](k requires 0 <= k < |password| => password[k]);
    assert passwordArray[..] == password;
    Shuffle(passwordArray, d.swaps);
    pw := passwordArray[..];
    StrongPasswordMeetsPolicy(d);
  }

  /** The alternative passwords of `getPredefinedStrongPassword`. */
  const PredefinedPasswords: seq<string> := [
    "StrongPass123!",
    "SecurePwd456@",
    "TestPass789#",
    "Password123$",
    "AdminPass!123",
    "UserPass@456",
    "DemoPass#789",
    "TempPass$012"
  ]

  /** How many alternative passwords there are to draw from. */
  const PredefinedCount: nat := 8

  /** A password meets the policy when one position of each class is known. */
  lemma PolicyWitness(p: string, u: nat, l: nat, n: nat, s: nat)
    requires |p| >= PasswordLength && u < |p| && l < |p| && n < |p| && s < |p|
    requires 'A' <= p[u] <= 'Z' && 'a' <= p[l] <= 'z' && '0' <= p[n] <= '9' && p[s] in Special
    ensures MeetsPolicy(p)
  {
    InCharRange('A', 26, p[u]);
    InCharRange('a', 26, p[l]);
    InCharRange('0', 10, p[n]);
  }

  /** Every predefined password has length at least 12 and one character of each class. */
  lemma PredefinedPasswordsMeetPolicy()
    ensures forall p :: p in PredefinedPasswords ==> MeetsPolicy(p)
  {
    PolicyWitness("StrongPass123!", 0, 1, 10, 13);
    PolicyWitness("SecurePwd456@", 0, 1, 9, 12);
    PolicyWitness("TestPass789#", 0, 1, 8, 11);
    PolicyWitness("Password123$", 0, 1, 8, 11);
    PolicyWitness("AdminPass!123", 0, 1, 10, 9);
    PolicyWitness("UserPass@456", 0, 1, 9, 8);
    PolicyWitness("DemoPass#789", 0, 1, 9, 8);
    PolicyWitness("TempPass$012", 0, 1, 9, 8);
  }

  /** `getPredefinedStrongPassword` with its draw `k`. */
  function PredefinedStrongPassword(k: nat): (p: string)
    requires k < PredefinedCount
    ensures p in PredefinedPasswords && MeetsPolicy(p)
  {
    PredefinedPasswordsMeetPolicy();
    PredefinedPasswords[k]
  }

  const EmailPrefix: string := "testuser_"
  const EmailDomain: string := "@test.com"

  /** `generateUniqueEmail`, given the text of the random UUID. */
  function GenerateUniqueEmail(uuid: string): (e: string)
    requires |uuid| >= 8
    ensures |e| == |EmailPrefix| + 8 + |EmailDomain| == 26
    ensures e[..9] == EmailPrefix && e[17..] == EmailDomain
  {
    EmailPrefix + uuid[..8] + EmailDomain
  }

  /** The eight random characters of a generated address. */
  function EmailIdentifier(e: string): string
    requires |e| == 26
  {
    e[9..17]
  }

  /** The address carries the first eight characters of the UUID text, recoverable from it. */
  lemma EmailIdentifierRoundTrip(uuid: string)
    requires |uuid| >= 8
    ensures EmailIdentifier(GenerateUniqueEmail(uuid)) == uuid[..8]
  {
    var e := GenerateUniqueEmail(uuid);
    assert e == EmailPrefix + uuid[..8] + EmailDomain;
    assert e[9..17] == uuid[..8];
  }

  /** Two addresses collide exactly when the UUID texts share their first eight characters. */
  lemma EmailsCollideIff(u1: string, u2: string)
    requires |u1| >= 8 && |u2| >= 8
    ensures GenerateUniqueEmail(u1) == GenerateUniqueEmail(u2) <==> u1[..8] == u2[..8]
  {
    EmailIdentifierRoundTrip(u1);
    EmailIdentifierRoundTrip(u2);
  }
}
