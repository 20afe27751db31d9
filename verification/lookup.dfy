/**
  The name lookup shared by playlists (src/Network.php), radio stations and radio shows
  (src/Services/Radio.php): walk the list once; an exact name match is returned at once,
  while a case-insensitive match is remembered in `$roughMatch`, each later one replacing
  the earlier, and returned only if the walk finds no exact match.
 */
module Lookup {
  import opened Wrappers
  import opened Text
  import opened Seqs

  /** `strtolower($a) === strtolower($b)` for the item's name. */
  predicate RoughlyNamed<T>(nameOf: T -> string, x: T, name: string) {
    Lower(nameOf(x)) == Lower(name)
  }

  /** The exact-match test, as a function value. */
  function Named<T>(nameOf: T -> string, name: string): T -> bool {
    (x: T) => nameOf(x) == name
  }

  /** Index of the last item whose name equals `name` up to ASCII case. */
  function LastRough<T>(items: seq<T>, nameOf: T -> string, name: string): (r: Option<nat>)
    ensures r.Some? ==> r.value < |items| && RoughlyNamed(nameOf, items[r.value], name)
    ensures r.Some? ==> forall j :: r.value < j < |items| ==> !RoughlyNamed(nameOf, items[j], name)
    ensures r.None? ==> forall j :: 0 <= j < |items| ==> !RoughlyNamed(nameOf, items[j], name)
    decreases |items|
  {
    if items == [] then None
    else if RoughlyNamed(nameOf, items[|items| - 1], name) then Some(|items| - 1)
    else LastRough(items[..|items| - 1], nameOf, name)
  }

  function At<T>(items: seq<T>, i: Option<nat>): Option<T> {
    match i
    case Some(k) => if k < |items| then Some(items[k]) else None
    case None => None
  }

  /** The lookup's result: the first exact match, else the last rough match, else nothing. */
  function NameMatch<T>(items: seq<T>, nameOf: T -> string, name: string): Option<T> {
    match FirstWhere(items, Named(nameOf, name))
    case Some(i) => Some(items[i])
    case None => At(items, LastRough(items, nameOf, name))
  }

  /** A lookup finds something exactly when some item matches up to case, and what it finds
      is always such an item; an exact match wins over every rough one. */
  lemma NameMatchSpec<T>(items: seq<T>, nameOf: T -> string, name: string)
    ensures NameMatch(items, nameOf, name).Some? <==>
              exists j :: 0 <= j < |items| && RoughlyNamed(nameOf, items[j], name)
    ensures NameMatch(items, nameOf, name).Some? ==>
              NameMatch(items, nameOf, name).value in items
              && RoughlyNamed(nameOf, NameMatch(items, nameOf, name).value, name)
    ensures (exists j :: 0 <= j < |items| && nameOf(items[j]) == name) ==>
              NameMatch(items, nameOf, name).Some?
              && nameOf(NameMatch(items, nameOf, name).value) == name
  {
    match FirstWhere(items, Named(nameOf, name))
    case Some(i) =>
      assert RoughlyNamed(nameOf, items[i], name);
    case None =>
      assert forall j :: 0 <= j < |items| ==> nameOf(items[j]) != name by {
        forall j | 0 <= j < |items| ensures nameOf(items[j]) != name {
          assert !Named(nameOf, name)(items[j]);
        }
      }
  }

  /** The first item named exactly `name` is the one found, whatever rough matches there are. */
  lemma NameMatchFirstExact<T>(items: seq<T>, nameOf: T -> string, name: string, k: nat)
    requires k < |items| && nameOf(items[k]) == name
    requires forall j :: 0 <= j < k ==> nameOf(items[j]) != name
    ensures NameMatch(items, nameOf, name) == Some(items[k])
  {
    FirstWhereIs(items, Named(nameOf, name), k);
  }

  /** With no exact match, the last item named `name` up to case is the one found. */
  lemma NameMatchLastRough<T>(items: seq<T>, nameOf: T -> string, name: string, k: nat)
    requires forall j :: 0 <= j < |items| ==> nameOf(items[j]) != name
    requires k < |items| && RoughlyNamed(nameOf, items[k], name)
    requires forall j :: k < j < |items| ==> !RoughlyNamed(nameOf, items[j], name)
    ensures NameMatch(items, nameOf, name) == Some(items[k])
  {
    FirstWhereNone(items, Named(nameOf, name));
    var r := LastRough(items, nameOf, name);
    assert r.Some?;
    assert !(r.value < k) && !(r.value > k);
  }

  /** The loop of getPlaylistByName / getFavouriteStation / getFavouriteShow. */
  method FindByName<T>(items: seq<T>, nameOf: T -> string, name: string) returns (r: Option<T>)
    ensures r == NameMatch(items, nameOf, name)
  {
    var roughMatch: Option<T> := None;
    for i := 0 to |items|
      invariant forall j :: 0 <= j < i ==> nameOf(items[j]) != name
      invariant roughMatch == At(items[..i], LastRough(items[..i], nameOf, name))
    {
      if nameOf(items[i]) == name {
        FirstWhereIs(items, Named(nameOf, name), i);
        return Some(items[i]);
      }
      assert items[..i + 1][..i] == items[..i];
      if Lower(nameOf(items[i])) == Lower(name) {
        roughMatch := Some(items[i]);
      }
    }
    assert items[..|items|] == items;
    return roughMatch;
  }

  /** The loop of hasPlaylist: true at the first exact or case-insensitive match. */
  method HasMatch<T>(items: seq<T>, nameOf: T -> string, name: string) returns (b: bool)
    ensures b <==> NameMatch(items, nameOf, name).Some?
  {
    NameMatchSpec(items, nameOf, name);
    for i := 0 to |items|
      invariant forall j :: 0 <= j < i ==> !RoughlyNamed(nameOf, items[j], name)
    {
      if nameOf(items[i]) == name {
        return true;
      }
      if Lower(nameOf(items[i])) == Lower(name) {
        return true;
      }
    }
    return false;
  }
}
