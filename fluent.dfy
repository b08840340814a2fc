/** The locale table of `hyo-fluent/src/lib.rs`: bundles of localised messages,
    first-match lookup across an ordered list of bundles, and `LocaleMap`, which
    keeps its bundles sorted by their first locale for binary search. A bundle is
    abstract: its list of locales and a partial map from message id to message.
    Turning a message pattern into text belongs to the `fluent` crate and is a
    parameter `fmt` here. */
module Fluent {
  import opened Common

  /** A `LanguageIdentifier`, standing for its place in the identifiers' total
      order (`Ord`), which is all that binary search looks at. */
  type LangId = int

  /** A message pattern, to be formatted by the `fluent` crate. */
  datatype Pattern = Pattern(source: string)

  /** A `FluentMessage`: an optional value pattern. */
  datatype Message = Message(value: Option<Pattern>)

  /** A `FluentBundle`: the locales it was built for and its messages by id. */
  datatype Bundle = Bundle(locales: seq<LangId>, messages: map<string, Message>)

  /** A `FluentError` collected while formatting. */
  datatype FluentError = FluentError(description: string)

  /** What `FluentBundle::format_pattern` produces: the text and the errors it
      pushed. */
  datatype Formatted = Formatted(text: string, errors: seq<FluentError>)

  /** `FluentFormatError`. */
  datatype FormatError = NotFound | NoValue | Format(errors: seq<FluentError>)

  /** `format_message`: `NoValue` for a message without a value; otherwise the
      formatted text when formatting reported no error, and all the errors when
      it reported some. `fmt` stands for `format_pattern` with the arguments
      already applied. */
  function FormatMessage(fmt: (Bundle, Pattern) -> Formatted, bundle: Bundle, msg: Message)
    : (r: Result<string, FormatError>)
    ensures r == Err(NoValue) <==> msg.value.None?
    ensures r.Ok? <==> msg.value.Some? && fmt(bundle, msg.value.value).errors == []
    ensures r.Ok? ==> r.value == fmt(bundle, msg.value.value).text
    ensures r.Err? && msg.value.Some? ==>
              r.error == Format(fmt(bundle, msg.value.value).errors) && r.error.errors != []
  {
    match msg.value
    case None => Err(NoValue)
    case Some(pattern) =>
      var out := fmt(bundle, pattern);
      if out.errors == [] then Ok(out.text) else Err(Format(out.errors))
  }

  /** The index of the first bundle in `bundles` that has a message `id`. */
  function FirstWith(bundles: seq<Bundle>, id: string): (r: Option<nat>)
    ensures r.None? <==> forall i :: 0 <= i < |bundles| ==> id !in bundles[i].messages
    ensures r.Some? ==>
              && r.value < |bundles| && id in bundles[r.value].messages
              && forall j :: 0 <= j < r.value ==> id !in bundles[j].messages
  {
    if bundles == [] then None
    else if id in bundles[0].messages then Some(0)
    else
      match FirstWith(bundles[1..], id)
      case None => None
      case Some(k) => Some(k + 1)
  }

  /** `IterFluentBundles::get_message`: the message `id` of the first bundle
      that has one. */
  function GetMessage(bundles: seq<Bundle>, id: string): (r: Option<Message>)
    ensures r.None? <==> FirstWith(bundles, id).None?
    ensures r.Some? ==> r.value == bundles[FirstWith(bundles, id).value].messages[id]
  {
    if bundles == [] then None
    else if id in bundles[0].messages then Some(bundles[0].messages[id])
    else GetMessage(bundles[1..], id)
  }

  /** `IterFluentBundles::format`: `NotFound` when no bundle has the message;
      otherwise the message of the first bundle that has it, formatted by that
      bundle. */
  function FormatId(fmt: (Bundle, Pattern) -> Formatted, bundles: seq<Bundle>, id: string)
    : (r: Result<string, FormatError>)
    ensures FirstWith(bundles, id).None? ==> r == Err(NotFound)
    ensures FirstWith(bundles, id).Some? ==>
              var b := bundles[FirstWith(bundles, id).value];
              r == FormatMessage(fmt, b, b.messages[id])
  {
    if bundles == [] then Err(NotFound)
    else if id in bundles[0].messages then
      FormatMessage(fmt, bundles[0], bundles[0].messages[id])
    else FormatId(fmt, bundles[1..], id)
  }

  /** `IterFluentBundles::localize`: the formatted message, or the id itself
      whenever formatting fails. */
  function Localize(fmt: (Bundle, Pattern) -> Formatted, bundles: seq<Bundle>, id: string)
    : (r: string)
    ensures FirstWith(bundles, id).None? ==> r == id
    ensures FirstWith(bundles, id).Some? ==>
              var b := bundles[FirstWith(bundles, id).value];
              var msg := b.messages[id];
              if msg.value.Some? && fmt(b, msg.value.value).errors == []
              then r == fmt(b, msg.value.value).text
              else r == id
  {
    match FormatId(fmt, bundles, id)
    case Ok(s) => s
    case Err(_) => id
  }

  /** Later bundles are only consulted for ids the earlier ones lack: putting
      bundles in front of a list that already has `id` changes nothing when they
      lack it. */
  lemma {:induction false} FormatIdSkipsLacking(fmt: (Bundle, Pattern) -> Formatted,
                                               front: seq<Bundle>, back: seq<Bundle>, id: string)
    requires forall i :: 0 <= i < |front| ==> id !in front[i].messages
    ensures FormatId(fmt, front + back, id) == FormatId(fmt, back, id)
  {
    if front == [] {
      assert front + back == back;
    } else {
      assert (front + back)[0] == front[0] && (front + back)[1..] == front[1..] + back;
      FormatIdSkipsLacking(fmt, front[1..], back, id);
    }
  }

  /** A sequence sorted in non-decreasing order. */
  ghost predicate Sorted(s: seq<LangId>) {
    forall i, j :: 0 <= i < j < |s| ==> s[i] <= s[j]
  }

  /** Binary search of `x` in `s[lo..hi]`, everything before `lo` being smaller
      than `x` and everything from `hi` on larger. */
  function Search(s: seq<LangId>, x: LangId, lo: nat, hi: nat): (r: Result<nat, nat>)
    requires lo <= hi <= |s| && Sorted(s)
    requires forall j :: 0 <= j < lo ==> s[j] < x
    requires forall j :: hi <= j < |s| ==> s[j] > x
    ensures r.Ok? ==> r.value < |s| && s[r.value] == x
    ensures r.Err? ==>
              && r.error <= |s|
              && (forall j :: 0 <= j < r.error ==> s[j] < x)
              && (forall j :: r.error <= j < |s| ==> s[j] > x)
    decreases hi - lo
  {
    if lo == hi then Err(lo)
    else
      var mid := (lo + hi) / 2;
      if s[mid] < x then Search(s, x, mid + 1, hi)
      else if s[mid] > x then Search(s, x, lo, mid)
      else Ok(mid)
  }

  /** `slice::binary_search` on a sorted slice: `Ok` with the index of an equal
      element, or `Err` with the index where `x` would be inserted to keep the
      slice sorted, which happens exactly when `x` is absent. */
  function BinarySearch(s: seq<LangId>, x: LangId): (r: Result<nat, nat>)
    requires Sorted(s)
    ensures r.Ok? <==> x in s
    ensures r.Ok? ==> r.value < |s| && s[r.value] == x
    ensures r.Err? ==>
              && r.error <= |s|
              && (forall j :: 0 <= j < r.error ==> s[j] < x)
              && (forall j :: r.error <= j < |s| ==> s[j] > x)
  {
    Search(s, x, 0, |s|)
  }

  /** `binary_search(x).unwrap_or_else(|i| i)`: where `x` goes in the sorted `s`. */
  function InsertionPoint(s: seq<LangId>, x: LangId): (r: nat)
    requires Sorted(s)
    ensures r <= |s|
    ensures forall j :: 0 <= j < r ==> s[j] <= x
    ensures forall j :: r <= j < |s| ==> x <= s[j]
  {
    match BinarySearch(s, x)
    case Ok(i) => i
    case Err(i) => i
  }

  /** `Vec::insert`: `x` at index `pos`, the elements from `pos` on moved up. */
  function Insert<T>(s: seq<T>, pos: nat, x: T): (r: seq<T>)
    requires pos <= |s|
    ensures |r| == |s| + 1 && r[pos] == x
    ensures forall j :: 0 <= j < pos ==> r[j] == s[j]
    ensures forall j :: pos < j < |r| ==> r[j] == s[j - 1]
    ensures multiset(r) == multiset(s) + multiset{x}
  {
    assert s == s[..pos] + s[pos..];
    s[..pos] + [x] + s[pos..]
  }

  /** Inserting at the insertion point keeps a sorted sequence sorted. */
  lemma InsertSorted(s: seq<LangId>, x: LangId)
    requires Sorted(s)
    ensures Sorted(Insert(s, InsertionPoint(s, x), x))
  {
    var pos, r := InsertionPoint(s, x), Insert(s, InsertionPoint(s, x), x);
    forall i, j | 0 <= i < j < |r| ensures r[i] <= r[j] {
      if j < pos {
      } else if j == pos {
      } else if i < pos {
      } else if i == pos {
      } else {
        assert r[i] == s[i - 1] && r[j] == s[j - 1];
      }
    }
  }

  /** The bundles of `bundles` that have at least one locale, in order. */
  function WithLocales(bundles: seq<Bundle>): (r: seq<Bundle>)
    ensures |r| <= |bundles|
    ensures forall i :: 0 <= i < |r| ==> r[i].locales != []
  {
    if bundles == [] then []
    else
      var last := bundles[|bundles| - 1];
      WithLocales(bundles[..|bundles| - 1]) + (if last.locales == [] then [] else [last])
  }

  /** `LocaleMap`: the bundles and, in the parallel vector `languages`, the first
      locale of each, kept sorted; and the fallback language. */
  class LocaleMap {
    var languages: seq<LangId>
    var bundles: seq<Bundle>
    var fallback: LangId

    /** The two vectors are parallel, `languages` is sorted, and every bundle is
        stored under its first locale. */
    ghost predicate Valid()
      reads this
    {
      && |languages| == |bundles|
      && Sorted(languages)
      && forall i :: 0 <= i < |bundles| ==>
           bundles[i].locales != [] && bundles[i].locales[0] == languages[i]
    }

    /** `LocaleMap::with_capacity`: an empty map; the capacity only pre-sizes the
        vectors. */
    constructor WithCapacity(fallback: LangId, capacity: nat)
      ensures Valid() && languages == [] && bundles == [] && this.fallback == fallback
    {
      languages, bundles := [], [];
      this.fallback := fallback;
    }

    /** `LocaleMap::new_with_fallback`: every bundle with a locale added in
        turn; bundles without one are dropped. */
    constructor NewWithFallback(input: seq<Bundle>, fallback: LangId)
      ensures Valid() && this.fallback == fallback
      ensures multiset(bundles) == multiset(WithLocales(input))
      ensures |languages| == |WithLocales(input)|
    {
      languages, bundles := [], [];
      this.fallback := fallback;
      new;
      for k := 0 to |input|
        invariant Valid() && this.fallback == fallback
        invariant multiset(bundles) == multiset(WithLocales(input[..k]))
        invariant |languages| == |WithLocales(input[..k])|
      {
        assert input[..k + 1][..k] == input[..k];
        var _ := AddBundle(input[k]);
      }
      assert input[..|input|] == input;
    }

    /** `LocaleMap::has_fallback`. */
    function HasFallback(): (r: bool)
      reads this
      requires Valid()
      ensures r <==> fallback in languages
    {
      GetBundle(fallback).Some?
    }

    /** `LocaleMap::add_bundle`: a bundle without locales is refused; any other
        is inserted, in both vectors, at the binary-search position of its first
        locale. */
    method AddBundle(bundle: Bundle) returns (ok: bool)
      requires Valid()
      modifies this
      ensures Valid() && fallback == old(fallback)
      ensures ok <==> bundle.locales != []
      ensures !ok ==> languages == old(languages) && bundles == old(bundles)
      ensures ok ==>
                var pos := InsertionPoint(old(languages), bundle.locales[0]);
                && languages == Insert(old(languages), pos, bundle.locales[0])
                && bundles == Insert(old(bundles), pos, bundle)
    {
      if bundle.locales == [] {
        return false;
      }
      var langid := bundle.locales[0];
      var pos := InsertionPoint(languages, langid);
      InsertSorted(languages, langid);
      languages := Insert(languages, pos, langid);
      bundles := Insert(bundles, pos, bundle);
      ok := true;
    }

    /** `LocaleMap::get_bundle`: a bundle stored under `langid`, if any. */
    function GetBundle(langid: LangId): (r: Option<Bundle>)
      reads this
      requires Valid()
      ensures r.Some? <==> langid in languages
      ensures r.Some? ==> r.value in bundles && r.value.locales[0] == langid
    {
      var found := BinarySearch(languages, langid);
      if found.Ok? && found.value < |bundles| then Some(bundles[found.value]) else None
    }

    /** The ids of `langids` that the map has a bundle for, in order. */
    ghost function Known(langids: seq<LangId>): seq<LangId>
      reads this
    {
      if langids == [] then []
      else
        var last := langids[|langids| - 1];
        Known(langids[..|langids| - 1]) + (if last in languages then [last] else [])
    }

    /** `LocaleMap::get_bundles`: for each id in turn that has a bundle, that
        bundle; ids without one are skipped. */
    function GetBundles(langids: seq<LangId>): (r: seq<Bundle>)
      reads this
      requires Valid()
      ensures |r| == |Known(langids)|
      ensures forall i :: 0 <= i < |r| ==> r[i] in bundles && r[i].locales[0] == Known(langids)[i]
    {
      if langids == [] then []
      else
        var last := langids[|langids| - 1];
        GetBundles(langids[..|langids| - 1]) +
          (match GetBundle(last) case Some(b) => [b] case None => [])
    }
  }
}
