/** The permission strategy of a distributor and the prefix include/exclude
    rule, the one strategy there is. */
module Permission {

  /** A distributor's permission strategy. The include/exclude rule holds two
      ordered lists of code prefixes; a code is granted when it starts with
      some include entry and with no exclude entry. */
  datatype PermissionStrategy = IncludeExclude(includes: seq<string>, excludes: seq<string>)

  /** Whether some entry is a prefix of `code`, scanning the entries in order
      and stopping at the first one that is. */
  function MatchesAny(entries: seq<string>, code: string): (r: bool)
    ensures r <==> exists e :: e in entries && e <= code
  {
    if entries == [] then false
    else if entries[0] <= code then assert entries[0] in entries; true
    else
      assert forall e :: e in entries <==> e == entries[0] || e in entries[1..];
      MatchesAny(entries[1..], code)
  }

  /** The decision of a strategy for a city code: the exclude list is
      consulted first, and any match there denies; otherwise a match in the
      include list grants; otherwise the code is denied. */
  function Permit(p: PermissionStrategy, code: string): (r: bool)
    ensures r <==> (!exists e :: e in p.excludes && e <= code) &&
                   (exists e :: e in p.includes && e <= code)
  {
    match p
    case IncludeExclude(includes, excludes) =>
      if MatchesAny(excludes, code) then false else MatchesAny(includes, code)
  }

  /** The permission check as the program runs it: one scan over the exclude
      entries that returns false at the first prefix, then one scan over the
      include entries that returns true at the first prefix, then false. */
  method CheckPermission(p: PermissionStrategy, cityCode: string) returns (allowed: bool)
    ensures allowed == Permit(p, cityCode)
    ensures !allowed <==> (exists e :: e in p.excludes && e <= cityCode) ||
                          (forall e :: e in p.includes ==> !(e <= cityCode))
  {
    var i := 0;
    while i < |p.excludes|
      invariant 0 <= i <= |p.excludes|
      invariant forall k :: 0 <= k < i ==> !(p.excludes[k] <= cityCode)
    {
      if p.excludes[i] <= cityCode {
        assert p.excludes[i] in p.excludes;
        return false;
      }
      i := i + 1;
    }
    var j := 0;
    while j < |p.includes|
      invariant 0 <= j <= |p.includes|
      invariant forall k :: 0 <= k < j ==> !(p.includes[k] <= cityCode)
    {
      if p.includes[j] <= cityCode {
        assert p.includes[j] in p.includes;
        return true;
      }
      j := j + 1;
    }
    return false;
  }

  /** An exclude entry that is a prefix of the code denies it, whatever the
      include list holds. */
  lemma ExclusionTakesPrecedence(p: PermissionStrategy, code: string, e: string)
    requires e in p.excludes && e <= code
    ensures !Permit(p, code)
  {
  }

  /** With no exclude entry a prefix of the code, an include entry that is a
      prefix grants it. */
  lemma IncludeGrants(p: PermissionStrategy, code: string, e: string)
    requires forall x :: x in p.excludes ==> !(x <= code)
    requires e in p.includes && e <= code
    ensures Permit(p, code)
  {
  }

  /** A strategy with an empty include list denies every code. */
  lemma EmptyIncludeDeniesAll(p: PermissionStrategy, code: string)
    requires p.includes == []
    ensures !Permit(p, code)
  {
  }

  /** A code that no entry of either list is a prefix of is denied. */
  lemma DefaultDeny(p: PermissionStrategy, code: string)
    requires forall x :: x in p.includes ==> !(x <= code)
    requires forall x :: x in p.excludes ==> !(x <= code)
    ensures !Permit(p, code)
  {
  }

  /** The decision depends only on which entries each list holds: reordering
      or duplicating entries in either list does not change it. */
  lemma OrderIrrelevant(p: PermissionStrategy, q: PermissionStrategy, code: string)
    requires forall x :: x in p.includes <==> x in q.includes
    requires forall x :: x in p.excludes <==> x in q.excludes
    ensures Permit(p, code) == Permit(q, code)
  {
  }
}
