// What the segments of a path denote, told from the segments alone.
module Paths {
  import opened Wrappers
  import opened Template

  // A "..", "." or "this" behind a name.
  ghost predicate DotsAfterName(parts: seq<string>) {
    exists j, k :: 0 <= j < k < |parts| && IsName(parts[j]) && !IsName(parts[k])
  }

  predicate IsName(part: string) { part != ".." && part != "." && part != "this" }

  // The first n segments are not names, the others are.
  ghost predicate NamesFrom(parts: seq<string>, n: nat) {
    n <= |parts| && forall k :: 0 <= k < |parts| ==> (IsName(parts[k]) <==> n <= k)
  }

  lemma PrefixOfPath(parts: seq<string>, n: nat)
    requires n < |parts| && DotsAfterName(parts[..n])
    ensures DotsAfterName(parts)
  {
    var j, k :| 0 <= j < k < n && IsName(parts[..n][j]) && !IsName(parts[..n][k]);
    assert IsName(parts[j]) && !IsName(parts[k]);
  }

  // One segment more.
  lemma LastSegment(parts: seq<string>, m: nat)
    requires |parts| > 0 && NamesFrom(parts[..|parts| - 1], m)
    ensures var last, n := parts[|parts| - 1], |parts| - 1;
      && (IsName(last) ==> NamesFrom(parts, m))
      && (!IsName(last) && m == n ==> NamesFrom(parts, n + 1))
      && (!IsName(last) && m < n ==> DotsAfterName(parts))
  {
    var n := |parts| - 1;
    assert forall k :: 0 <= k < n ==> parts[k] == parts[..n][k];
    if !IsName(parts[n]) && m < n { assert IsName(parts[m]); }
  }

  lemma NotBoth(parts: seq<string>, n: nat)
    requires NamesFrom(parts, n)
    ensures !DotsAfterName(parts)
  {
  }

  // The walk fails exactly on such a path; else it counts the ".." segments and keeps the
  // names, and notices a "." or "this".
  lemma {:induction false} WalkIs(parts: seq<string>) returns (n: nat)
    ensures Walk(parts).None? <==> DotsAfterName(parts)
    ensures Walk(parts).Some? ==> var (depth, dig, scoped) := Walk(parts).value;
      && NamesFrom(parts, n) && dig == parts[n..] && depth == multiset(parts)[".."]
      && (scoped <==> "." in parts || "this" in parts)
  {
    if |parts| == 0 { return 0; }
    var init, last := parts[..|parts| - 1], parts[|parts| - 1];
    assert parts == init + [last];
    var m := WalkIs(init);
    if Walk(init).None? {
      PrefixOfPath(parts, |init|);
      return 0;
    }
    NotBoth(init, m);
    LastSegment(parts, m);
    assert multiset(parts)[".."] == multiset(init)[".."] + if last == ".." then 1 else 0;
    n := if IsName(last) then m else |parts|;
    if NamesFrom(parts, n) { NotBoth(parts, n); }
  }

  // The depth is the number of ".." segments, the parts are the names in order, before
  // which nothing but dots comes, and the id is simple exactly if the path is one name.
  predicate IdIs(parts: seq<string>, id: Id) {
    && id.depth == multiset(parts)[".."]
    && |id.parts| <= |parts| && id.parts == parts[|parts| - |id.parts|..]
    && (forall part :: part in id.parts ==> part != ".." && part != "." && part != "this")
    && (forall k :: 0 <= k < |parts| - |id.parts| ==> parts[k] == ".." || parts[k] == "." || parts[k] == "this")
    && (id.isSimple <==> |parts| == 1 && parts[0] != ".." && parts[0] != "." && parts[0] != "this")
  }

  // new IdNode(parts): an error exactly if a "..", "." or "this" follows a name.
  lemma MakeIdIs(parts: seq<string>)
    ensures MakeId(parts).None? <==>
      exists j, k :: 0 <= j < k < |parts| && IsName(parts[j]) && !IsName(parts[k])
    ensures MakeId(parts).Some? ==> IdIs(parts, MakeId(parts).value)
  {
    var n := WalkIs(parts);
    if MakeId(parts).Some? && |parts| == 1 {
      assert parts == [parts[0]];
      assert multiset(parts)[".."] == if parts[0] == ".." then 1 else 0;
    }
  }
}
