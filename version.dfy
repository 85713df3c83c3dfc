/**
 * update_checker.py: reading a release tag and the local version as tuples
 * of integers and offering an update only when the release is newer.
 *
 * The HTTP request, the JSON decoding, the yes/no dialog and the browser are
 * not modelled: what the request returned (or that it failed) and what the
 * user answered arrive as parameters.
 */
module UpdateChecker {
  import opened Wrappers
  import opened PyText

  // ---------------------------------------------------------------------------
  // Strings
  // ---------------------------------------------------------------------------

  /** `s.lstrip(c)` for one character: every leading `c` removed. */
  function LStrip(s: string, c: char): (r: string)
    ensures |r| <= |s| && r == s[|s| - |r|..]
    ensures r == [] || r[0] != c
    ensures forall i | 0 <= i < |s| - |r| :: s[i] == c
  {
    if s != [] && s[0] == c then LStrip(s[1..], c) else s
  }

  /** `s.split(sep)` for a one-character separator: the text between the separators, in order. */
  function Split(s: string, sep: char): (parts: seq<string>)
    ensures |parts| >= 1
  {
    if s == [] then [[]]
    else
      var rest := Split(s[1..], sep);
      if s[0] == sep then [[]] + rest else [[s[0]] + rest[0]] + rest[1..]
  }

  /** `sep.join(parts)`. */
  function Join(parts: seq<string>, sep: char): string {
    if parts == [] then []
    else if |parts| == 1 then parts[0]
    else parts[0] + [sep] + Join(parts[1..], sep)
  }

  /** A string without the separator splits into itself alone. */
  lemma {:induction false} SplitNoSeparator(s: string, sep: char)
    requires sep !in s
    ensures Split(s, sep) == [s]
  {
    if s != [] {
      assert sep !in s[1..];
      SplitNoSeparator(s[1..], sep);
      assert [s[0]] + s[1..] == s;
    }
  }

  /** Splitting `p + sep + t`, where `p` holds no separator, gives `p` followed by the parts of `t`. */
  lemma {:induction false} SplitAfterFirst(p: string, sep: char, t: string)
    requires sep !in p
    ensures Split(p + [sep] + t, sep) == [p] + Split(t, sep)
  {
    var s := p + [sep] + t;
    if p == [] {
      assert s[1..] == t;
    } else {
      assert s[1..] == p[1..] + [sep] + t;
      assert sep !in p[1..];
      SplitAfterFirst(p[1..], sep, t);
      assert [p[0]] + p[1..] == p;
    }
  }

  /** Splitting `s + sep + t`, where `t` holds no separator, gives the parts of `s` followed by `t`. */
  lemma {:induction false} SplitBeforeLast(s: string, sep: char, t: string)
    requires sep !in t
    ensures Split(s + [sep] + t, sep) == Split(s, sep) + [t]
  {
    var w := s + [sep] + t;
    if s == [] {
      SplitAfterFirst([], sep, t);
      assert [] + [sep] + t == w;
      SplitNoSeparator(t, sep);
    } else {
      assert w[1..] == s[1..] + [sep] + t;
      SplitBeforeLast(s[1..], sep, t);
      var rest := Split(s[1..], sep);
      assert Split(w[1..], sep) == rest + [t];
      if s[0] != sep {
        assert (rest + [t])[0] == rest[0];
        assert (rest + [t])[1..] == rest[1..] + [t];
      }
    }
  }

  /** Splitting what was joined gives the parts back, when none holds the separator. */
  lemma {:induction false} SplitJoin(parts: seq<string>, sep: char)
    requires parts != []
    requires forall i | 0 <= i < |parts| :: sep !in parts[i]
    ensures Split(Join(parts, sep), sep) == parts
  {
    if |parts| == 1 {
      SplitNoSeparator(parts[0], sep);
    } else {
      SplitJoin(parts[1..], sep);
      SplitAfterFirst(parts[0], sep, Join(parts[1..], sep));
      assert [parts[0]] + parts[1..] == parts;
    }
  }

  // ---------------------------------------------------------------------------
  // Version tuples
  // ---------------------------------------------------------------------------

  /** `x.isdigit()` for ASCII text: not empty, and digits only. */
  predicate IsDigits(x: string) {
    x != [] && forall i | 0 <= i < |x| :: IsDigit(x[i])
  }

  /** `[int(x) for x in parts if x.isdigit()]`. */
  function DigitParts(parts: seq<string>): (r: seq<nat>)
    ensures |r| <= |parts|
  {
    if parts == [] then []
    else
      var last := parts[|parts| - 1];
      DigitParts(parts[..|parts| - 1]) + (if IsDigits(last) then [DigitsValue(last)] else [])
  }

  /** `to_tuple(v)`: the dot-separated components made of digits only, as integers, in order. */
  function ToTuple(v: string): (r: seq<nat>)
    ensures |r| <= |Split(v, '.')|
    ensures '.' !in v ==> r == if IsDigits(v) then [DigitsValue(v)] else []
  {
    if '.' !in v then
      SplitNoSeparator(v, '.');
      assert Split(v, '.')[..0] == [];
      DigitParts(Split(v, '.'))
    else
      DigitParts(Split(v, '.'))
  }

  /** The decimal digits of each number. */
  function Render(nums: seq<nat>): (parts: seq<string>)
    ensures |parts| == |nums|
    ensures forall i | 0 <= i < |nums| :: IsDigits(parts[i])
  {
    seq(|nums|, i requires 0 <= i < |nums| => NatToString(nums[i]))
  }

  lemma DigitsHaveNoDot(x: string)
    requires IsDigits(x)
    ensures '.' !in x
  {
    forall i | 0 <= i < |x| ensures x[i] != '.' {
      assert IsDigit(x[i]);
    }
  }

  /** Components made of digits are read as the numbers they spell. */
  lemma {:induction false} DigitPartsKeepsDigits(parts: seq<string>, nums: seq<nat>)
    requires |parts| == |nums|
    requires forall i | 0 <= i < |nums| :: IsDigits(parts[i]) && DigitsValue(parts[i]) == nums[i]
    ensures DigitParts(parts) == nums
  {
    if parts != [] {
      var n := |parts| - 1;
      DigitPartsKeepsDigits(parts[..n], nums[..n]);
      assert nums[..n] + [nums[n]] == nums;
    }
  }

  /**
   * `to_tuple` reads back the version it is given as dot-separated numbers
   * without leading zeros: `to_tuple("1.2.60") == (1, 2, 60)`, and the empty
   * version is the empty tuple.
   */
  lemma ToTupleRoundTrip(nums: seq<nat>)
    ensures ToTuple(Join(Render(nums), '.')) == nums
  {
    var parts := Render(nums);
    if nums == [] {
      assert Join(parts, '.') == [];
    } else {
      forall i | 0 <= i < |parts| ensures '.' !in parts[i] {
        DigitsHaveNoDot(parts[i]);
      }
      SplitJoin(parts, '.');
      forall i | 0 <= i < |nums| ensures DigitsValue(parts[i]) == nums[i] {
        NatToStringValue(nums[i]);
      }
      DigitPartsKeepsDigits(parts, nums);
    }
  }

  /**
   * A last component that is not all digits is dropped:
   * `to_tuple("1.2.beta") == to_tuple("1.2")`.
   */
  lemma DropsNonDigitComponent(v: string, junk: string)
    requires '.' !in junk && !IsDigits(junk)
    ensures ToTuple(v + "." + junk) == ToTuple(v)
  {
    SplitBeforeLast(v, '.', junk);
    var parts := Split(v, '.') + [junk];
    assert parts[..|parts| - 1] == Split(v, '.');
  }

  /** A last component of digits is appended: `to_tuple("1.2.60") == to_tuple("1.2") + (60,)`. */
  lemma AppendsDigitComponent(v: string, digits: string)
    requires IsDigits(digits)
    ensures ToTuple(v + "." + digits) == ToTuple(v) + [DigitsValue(digits)]
  {
    DigitsHaveNoDot(digits);
    SplitBeforeLast(v, '.', digits);
    var parts := Split(v, '.') + [digits];
    assert parts[..|parts| - 1] == Split(v, '.');
  }

  // ---------------------------------------------------------------------------
  // Tuple order
  // ---------------------------------------------------------------------------

  /**
   * `a < b` on Python tuples: the first differing element decides, and when
   * one is a prefix of the other the shorter one is smaller.
   */
  function TupleLess(a: seq<nat>, b: seq<nat>): (r: bool)
    ensures r ==> a != b
    ensures |a| < |b| && a == b[..|a|] ==> r
  {
    if a == [] then b != []
    else if b == [] then false
    else if a[0] != b[0] then a[0] < b[0]
    else TupleLess(a[1..], b[1..])
  }

  /** `a < b` stated without recursion: a common prefix, then `a` ends or has the smaller element. */
  ghost predicate LessAt(a: seq<nat>, b: seq<nat>, k: nat) {
    k <= |a| && k < |b| && a[..k] == b[..k] && (k == |a| || a[k] < b[k])
  }

  lemma {:induction false} TupleLessAt(a: seq<nat>, b: seq<nat>, k: nat)
    requires LessAt(a, b, k)
    ensures TupleLess(a, b)
  {
    if a != [] && k > 0 {
      assert a[0] == a[..k][0] == b[..k][0] == b[0];
      assert a[1..][..k - 1] == a[..k][1..] && b[1..][..k - 1] == b[..k][1..];
      TupleLessAt(a[1..], b[1..], k - 1);
    }
  }

  lemma {:induction false} TupleLessWitness(a: seq<nat>, b: seq<nat>) returns (k: nat)
    requires TupleLess(a, b)
    ensures LessAt(a, b, k)
  {
    if a == [] || a[0] != b[0] {
      k := 0;
    } else {
      var j := TupleLessWitness(a[1..], b[1..]);
      k := j + 1;
      assert a[..k] == [a[0]] + a[1..][..j];
      assert b[..k] == [b[0]] + b[1..][..j];
    }
  }

  /** The tuple order is the lexicographic order in which a proper prefix comes first. */
  lemma TupleLessIff(a: seq<nat>, b: seq<nat>)
    ensures TupleLess(a, b) <==> exists k: nat :: LessAt(a, b, k)
  {
    if TupleLess(a, b) {
      var k := TupleLessWitness(a, b);
    }
    if k: nat :| LessAt(a, b, k) {
      TupleLessAt(a, b, k);
    }
  }

  /** Equal versions never compare as newer. */
  lemma {:induction false} TupleLessIrreflexive(a: seq<nat>)
    ensures !TupleLess(a, a)
  {
    if a != [] {
      TupleLessIrreflexive(a[1..]);
    }
  }

  lemma {:induction false} TupleLessAsymmetric(a: seq<nat>, b: seq<nat>)
    requires TupleLess(a, b)
    ensures !TupleLess(b, a)
  {
    if a != [] && a[0] == b[0] {
      TupleLessAsymmetric(a[1..], b[1..]);
    }
  }

  lemma {:induction false} TupleLessTransitive(a: seq<nat>, b: seq<nat>, c: seq<nat>)
    requires TupleLess(a, b) && TupleLess(b, c)
    ensures TupleLess(a, c)
  {
    if a != [] && a[0] == b[0] && b[0] == c[0] {
      TupleLessTransitive(a[1..], b[1..], c[1..]);
    }
  }

  /** Of two different versions, one is newer. */
  lemma {:induction false} TupleLessTotal(a: seq<nat>, b: seq<nat>)
    requires a != b
    ensures TupleLess(a, b) || TupleLess(b, a)
  {
    if a != [] && b != [] && a[0] == b[0] {
      assert a == [a[0]] + a[1..] && b == [b[0]] + b[1..];
      TupleLessTotal(a[1..], b[1..]);
    }
  }

  /** A proper prefix is older: `(1, 2) < (1, 2, 0)`. */
  lemma {:induction false} ProperPrefixIsLess(a: seq<nat>, rest: seq<nat>)
    requires rest != []
    ensures TupleLess(a, a + rest)
  {
    if a != [] {
      assert (a + rest)[1..] == a[1..] + rest;
      ProperPrefixIsLess(a[1..], rest);
    }
  }

  /** "1.2" is older than "1.2.0". */
  lemma ShortVersionIsOlder()
    ensures TupleLess(ToTuple("1.2"), ToTuple("1.2.0"))
  {
    var short := "1.2";
    AppendsDigitComponent(short, "0");
    assert short + "." + "0" == "1.2.0";
    ProperPrefixIsLess(ToTuple(short), [DigitsValue("0")]);
  }

  // ---------------------------------------------------------------------------
  // The update check
  // ---------------------------------------------------------------------------

  /** The `tag_name` member of the release JSON: missing, `null`, or a string. */
  datatype TagName = Missing | Null | Tag(text: string)

  /** The parts of the latest-release JSON object the check reads. */
  datatype Release = Release(tagName: TagName, htmlUrl: Option<string>)

  /**
   * The tag compared with the local version: the missing tag reads as "",
   * every leading 'v' is dropped, and a `null` tag raises inside the first
   * `try`, so the check stops.
   */
  function RemoteVersion(release: Release): (r: Option<string>)
    ensures r.None? <==> release.tagName.Null?
    ensures release.tagName.Missing? ==> r == Some([])
    ensures r.Some? ==> r.value == [] || r.value[0] != 'v'
    ensures release.tagName.Tag? ==> r == Some(LStrip(release.tagName.text, 'v'))
  {
    match release.tagName
    case Missing => Some([])
    case Null => None
    case Tag(text) => Some(LStrip(text, 'v'))
  }

  /**
   * Whether the update prompt is shown: the request succeeded (`fetched` is
   * the decoded JSON, `None` for any network or JSON error) and the remote
   * tuple is greater than the local one.
   */
  function OfferUpdate(fetched: Option<Release>, localVersion: string): (offer: bool)
    ensures offer <==> fetched.Some? && RemoteVersion(fetched.value).Some?
                       && TupleLess(ToTuple(localVersion), ToTuple(RemoteVersion(fetched.value).value))
  {
    if fetched.None? then false
    else
      match RemoteVersion(fetched.value)
      case None => false
      case Some(tag) => TupleLess(ToTuple(localVersion), ToTuple(tag))
  }

  /** The page opened when the user accepts: the release's `html_url`, or the releases page of `repo`. */
  function ReleasePage(release: Release, repo: string): (url: string)
    ensures release.htmlUrl.Some? ==> url == release.htmlUrl.value
    ensures release.htmlUrl.None? ==> url == "https://github.com/" + repo + "/releases/latest"
  {
    match release.htmlUrl
    case Some(u) => u
    case None => "https://github.com/" + repo + "/releases/latest"
  }

  /** `check_for_updates`: the page opened, if any, given what the user answers to the prompt. */
  function CheckForUpdates(fetched: Option<Release>, localVersion: string, repo: string, answer: bool): (page: Option<string>)
    ensures page.Some? <==> OfferUpdate(fetched, localVersion) && answer
    ensures page.Some? ==> page.value == ReleasePage(fetched.value, repo)
  {
    if OfferUpdate(fetched, localVersion) && answer then Some(ReleasePage(fetched.value, repo)) else None
  }

  /** A failed request offers nothing. */
  lemma FailedFetchOffersNothing(localVersion: string, repo: string, answer: bool)
    ensures !OfferUpdate(None, localVersion)
    ensures CheckForUpdates(None, localVersion, repo, answer) == None
  {
  }

  /** A release whose tag, leading 'v's dropped, is the local version is not offered. */
  lemma SameVersionNotOffered(tag: string, localVersion: string, htmlUrl: Option<string>)
    requires LStrip(tag, 'v') == localVersion
    ensures !OfferUpdate(Some(Release(Tag(tag), htmlUrl)), localVersion)
  {
    TupleLessIrreflexive(ToTuple(localVersion));
  }

  /** So the release "v1.2.60" is not offered to the local version "1.2.60". */
  lemma PrefixedTagNotOffered(localVersion: string, htmlUrl: Option<string>)
    requires localVersion == [] || localVersion[0] != 'v'
    ensures !OfferUpdate(Some(Release(Tag("v" + localVersion), htmlUrl)), localVersion)
  {
    assert ("v" + localVersion)[1..] == localVersion;
    SameVersionNotOffered("v" + localVersion, localVersion, htmlUrl);
  }

  /**
   * A present tag is offered exactly when its tuple, after every leading 'v'
   * is dropped, is greater than the local one.
   */
  lemma TagOfferIff(tag: string, localVersion: string, htmlUrl: Option<string>)
    ensures OfferUpdate(Some(Release(Tag(tag), htmlUrl)), localVersion)
            <==> TupleLess(ToTuple(localVersion), ToTuple(LStrip(tag, 'v')))
  {
  }

  /** A release whose stripped tag has a greater tuple is offered, whatever prefix of 'v's it carries. */
  lemma NewerReleaseOffered(localVersion: string, tag: string, htmlUrl: Option<string>)
    requires TupleLess(ToTuple(localVersion), ToTuple(LStrip(tag, 'v')))
    ensures OfferUpdate(Some(Release(Tag(tag), htmlUrl)), localVersion)
  {
    TagOfferIff(tag, localVersion, htmlUrl);
  }

  /** Tuples that agree up to a last element compare as their last elements do. */
  lemma {:induction false} LastElementDecides(a: seq<nat>, x: nat, y: nat)
    requires x < y
    ensures TupleLess(a + [x], a + [y])
  {
    if a != [] {
      assert (a + [x])[1..] == a[1..] + [x] && (a + [y])[1..] == a[1..] + [y];
      LastElementDecides(a[1..], x, y);
    }
  }

  /** Of two versions that differ only in their last all-digit component, the one whose component is greater is newer. */
  lemma NewerLastComponent(base: string, x: string, y: string)
    requires IsDigits(x) && IsDigits(y) && DigitsValue(x) < DigitsValue(y)
    ensures TupleLess(ToTuple(base + "." + x), ToTuple(base + "." + y))
  {
    AppendsDigitComponent(base, x);
    AppendsDigitComponent(base, y);
    LastElementDecides(ToTuple(base), DigitsValue(x), DigitsValue(y));
  }

  /** The digit groups "60" and "61" read as 60 and 61. */
  lemma DigitsValue60And61()
    ensures IsDigits("60") && IsDigits("61")
    ensures DigitsValue("60") == 60 && DigitsValue("61") == 61
  {
    assert "60"[..1] == "6" && "61"[..1] == "6" && "6"[..0] == [];
  }

  /** "v1.2.61" loses its one leading 'v'. */
  lemma StripsOneV()
    ensures LStrip("v1.2.61", 'v') == "1.2" + "." + "61"
  {
    assert "v1.2.61"[1..] == "1.2.61";
  }

  /** So the release "v1.2.61" is offered to the local version "1.2.60". */
  lemma PrefixedNewerTagOffered(htmlUrl: Option<string>)
    ensures OfferUpdate(Some(Release(Tag("v1.2.61"), htmlUrl)), "1.2.60")
  {
    StripsOneV();
    DigitsValue60And61();
    NewerLastComponent("1.2", "60", "61");
    assert "1.2" + "." + "60" == "1.2.60";
    NewerReleaseOffered("1.2.60", "v1.2.61", htmlUrl);
  }
}
