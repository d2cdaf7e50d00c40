// The locale used to format dates (src/utils.rs): the first of the
// environment variables LC_ALL, LC_TIME and LANG that is set, "en" when none
// is, without its charset suffix. The three variables are parameters here,
// None when unset.
module Utils {

  import opened Wrappers

  // The fallback chain of `unwrap_or_else`s.
  function ChosenLocale(lcAll: Option<string>, lcTime: Option<string>, lang: Option<string>): (r: string)
    ensures lcAll.Some? ==> r == lcAll.value
    ensures lcAll.None? && lcTime.Some? ==> r == lcTime.value
    ensures lcAll.None? && lcTime.None? && lang.Some? ==> r == lang.value
    ensures lcAll.None? && lcTime.None? && lang.None? ==> r == "en"
  {
    match lcAll
    case Some(v) => v
    case None =>
      match lcTime
      case Some(v) => v
      case None =>
        match lang
        case Some(v) => v
        case None => "en"
  }

  // `split('.').next().unwrap()`: the part of `s` before its first dot, or
  // all of `s` when it has none.
  function BeforeFirstDot(s: string): (r: string)
    ensures r <= s && '.' !in r
    ensures r == s <==> '.' !in s
    ensures |r| < |s| ==> s[|r|] == '.'
  {
    if s == [] || s[0] == '.' then [] else [s[0]] + BeforeFirstDot(s[1..])
  }

  // get_system_time_locale.
  function SystemTimeLocale(lcAll: Option<string>, lcTime: Option<string>, lang: Option<string>): (r: string)
    ensures r <= ChosenLocale(lcAll, lcTime, lang) && '.' !in r
    ensures |r| < |ChosenLocale(lcAll, lcTime, lang)| ==> ChosenLocale(lcAll, lcTime, lang)[|r|] == '.'
  {
    BeforeFirstDot(ChosenLocale(lcAll, lcTime, lang))
  }

  // The three properties of BeforeFirstDot pin it down: it is the only
  // dot-free prefix of `s` that is all of `s` or stops at a dot.
  lemma {:induction false} BeforeFirstDotUnique(s: string, p: string)
    requires p <= s && '.' !in p
    requires |p| < |s| ==> s[|p|] == '.'
    ensures p == BeforeFirstDot(s)
    decreases |s|
  {
    if s != [] && s[0] != '.' {
      assert p != [];
      assert p[0] == s[0];
      assert p[1..] <= s[1..];
      assert forall i :: 0 <= i < |p[1..]| ==> p[1..][i] == p[i + 1];
      if |p[1..]| < |s[1..]| {
        assert s[1..][|p[1..]|] == s[|p|];
      }
      BeforeFirstDotUnique(s[1..], p[1..]);
      assert p == [p[0]] + p[1..];
    } else if s != [] {
      assert p == [];
    }
  }

  // Stripping the charset twice is stripping it once.
  lemma BeforeFirstDotIdempotent(s: string)
    ensures BeforeFirstDot(BeforeFirstDot(s)) == BeforeFirstDot(s)
  {
  }

  // LC_ALL, when set, decides the locale whatever LC_TIME and LANG hold.
  lemma LcAllWins(v: string, lcTime: Option<string>, lang: Option<string>, lcTime': Option<string>, lang': Option<string>)
    ensures SystemTimeLocale(Some(v), lcTime, lang) == SystemTimeLocale(Some(v), lcTime', lang')
    ensures SystemTimeLocale(Some(v), lcTime, lang) == BeforeFirstDot(v)
  {
  }

  // A locale with a charset suffix loses it.
  lemma CharsetStripped()
    ensures SystemTimeLocale(None, None, Some("en_US.UTF-8")) == "en_US"
  {
    var s, p := "en_US.UTF-8", "en_US";
    assert p <= s && s[|p|] == '.';
    BeforeFirstDotUnique(s, p);
  }

  // With nothing set the locale is "en".
  lemma DefaultLocale()
    ensures SystemTimeLocale(None, None, None) == "en"
  {
    BeforeFirstDotUnique("en", "en");
  }
}
