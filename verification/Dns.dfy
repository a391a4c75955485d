/** The static DNS record list of one subscriber: the in-place edits of the write paths, and the
    map from domain to record that they stand for. */
module Dns {
  datatype Record = Record(domain: string, ip: string, ttl: nat)

  const MAX_RECORDS: nat := 64

  /** Index of the first record of `domain`, or the length. */
  function IndexOf(records: seq<Record>, domain: string): (i: nat)
    ensures i <= |records|
    ensures i < |records| ==> records[i].domain == domain
    ensures forall k | 0 <= k < i :: records[k].domain != domain
  {
    if records == [] || records[0].domain == domain then 0
    else 1 + IndexOf(records[1..], domain)
  }

  function AddOrUpdate(records: seq<Record>, r: Record): seq<Record> {
    var i := IndexOf(records, r.domain);
    if i < |records| then records[i := r] else records + [r]
  }

  function Without(records: seq<Record>, domain: string): (rest: seq<Record>)
    ensures |rest| <= |records|
    ensures |rest| == |records| <==> forall k | 0 <= k < |records| :: records[k].domain != domain
  {
    if records == [] then []
    else
      var last := |records| - 1;
      Without(records[..last], domain) + if records[last].domain == domain then [] else [records[last]]
  }

  /** `for i, rec := range records { if rec.Domain == … { records[i] = …; break } }`; a domain not
      found is appended, unless the list is full. */
  method AddOrUpdateInPlace(records: array<Record>, r: Record) returns (result: seq<Record>, full: bool)
    modifies records
    ensures full <==> records.Length >= MAX_RECORDS && IndexOf(old(records[..]), r.domain) == records.Length
    ensures !full ==> result == AddOrUpdate(old(records[..]), r)
    ensures full ==> records[..] == old(records[..])
  {
    full := false;
    for i := 0 to records.Length
      invariant records[..] == old(records[..])
      invariant forall k | 0 <= k < i :: records[k].domain != r.domain
    {
      if records[i].domain == r.domain {
        assert IndexOf(records[..], r.domain) == i;
        records[i] := r;
        return records[..], false;
      }
    }
    assert IndexOf(records[..], r.domain) == records.Length;
    full := records.Length >= MAX_RECORDS;
    result := if full then [] else records[..] + [r];
  }

  lemma WithoutSnoc(records: seq<Record>, i: nat, domain: string)
    requires i < |records|
    ensures Without(records[..i + 1], domain) ==
      Without(records[..i], domain) + if records[i].domain == domain then [] else [records[i]]
  {
    assert records[..i + 1][..i] == records[..i];
  }

  /** `kept := records[:0]`, then append the others: the survivors are written over the front of
      the very array that is being read. */
  method RemoveInPlace(records: array<Record>, domain: string) returns (kept: nat, found: bool)
    modifies records
    ensures kept <= records.Length
    ensures records[..kept] == Without(old(records[..]), domain)
    ensures found <==> exists k | 0 <= k < records.Length :: old(records[..])[k].domain == domain
  {
    kept, found := 0, false;
    ghost var was := records[..];
    for i := 0 to records.Length
      invariant kept <= i
      invariant records[..kept] == Without(was[..i], domain)
      invariant forall k | i <= k < records.Length :: records[k] == was[k]
      invariant found <==> kept < i
    {
      WithoutSnoc(was, i, domain);
      if records[i].domain == domain {
        found := true;
      } else {
        records[kept] := records[i];
        kept := kept + 1;
      }
    }
    assert was[..records.Length] == was;
  }

  ghost predicate Distinct(records: seq<Record>) {
    forall i, j | 0 <= i < j < |records| :: records[i].domain != records[j].domain
  }

  /** The list read as a map; a later record wins. */
  function ByDomain(records: seq<Record>): (m: map<string, Record>)
    ensures records != [] ==> m != map[]
  {
    if records == [] then map[]
    else
      var last := records[|records| - 1];
      assert last.domain in ByDomain(records[..|records| - 1])[last.domain := last];
      ByDomain(records[..|records| - 1])[last.domain := last]
  }

  lemma {:induction false} ByDomainKeys(records: seq<Record>, domain: string)
    ensures domain in ByDomain(records) <==> IndexOf(records, domain) < |records|
  {
    if records != [] {
      var last := |records| - 1;
      ByDomainKeys(records[..last], domain);
      var i, j := IndexOf(records, domain), IndexOf(records[..last], domain);
      if i < last {
        assert records[..last][i] == records[i];
      }
      if j < last {
        assert records[j] == records[..last][j];
      }
    }
  }

  lemma {:induction false} ByDomainReplace(records: seq<Record>, i: nat, r: Record)
    requires Distinct(records) && i < |records| && records[i].domain == r.domain
    ensures ByDomain(records[i := r]) == ByDomain(records)[r.domain := r]
  {
    var last := |records| - 1;
    if i < last {
      ByDomainReplace(records[..last], i, r);
      assert records[i := r][..last] == records[..last][i := r];
      assert records[last].domain != r.domain;
    } else {
      assert records[i := r][..last] == records[..last];
    }
  }

  /** An add or update is one map update, keeps domains distinct, changes no other position and
      grows the list only for a new domain. */
  lemma AddOrUpdateRefinesMap(records: seq<Record>, r: Record)
    requires Distinct(records)
    ensures var after := AddOrUpdate(records, r);
      && Distinct(after)
      && ByDomain(after) == ByDomain(records)[r.domain := r]
      && |after| == |records| + (if r.domain in ByDomain(records) then 0 else 1)
      && forall k | 0 <= k < |records| && records[k].domain != r.domain :: after[k] == records[k]
  {
    ByDomainKeys(records, r.domain);
    var i := IndexOf(records, r.domain);
    if i == |records| {
      assert (records + [r])[..|records|] == records;
    } else {
      ByDomainReplace(records, i, r);
    }
  }

  lemma {:induction false} WithoutIsMapRemoval(records: seq<Record>, domain: string)
    ensures ByDomain(Without(records, domain)) == ByDomain(records) - {domain}
  {
    if records != [] {
      var last := |records| - 1;
      WithoutIsMapRemoval(records[..last], domain);
      var front, m, r := Without(records[..last], domain), ByDomain(records[..last]), records[last];
      if r.domain != domain {
        assert (front + [r])[..|front|] == front;
        assert m[r.domain := r] - {domain} == (m - {domain})[r.domain := r];
      } else {
        assert Without(records, domain) == front + [] == front;
        assert m[r.domain := r] - {domain} == m - {domain};
      }
    }
  }

  /** `pick` embeds `kept` into `records` in order. */
  ghost predicate InOrder(kept: seq<Record>, records: seq<Record>, pick: seq<nat>) {
    && |pick| == |kept|
    && (forall k | 0 <= k < |pick| :: pick[k] < |records| && records[pick[k]] == kept[k])
    && (forall k, l | 0 <= k < l < |pick| :: pick[k] < pick[l])
  }

  lemma InOrderGrows(kept: seq<Record>, records: seq<Record>, pick: seq<nat>)
    requires records != [] && InOrder(kept, records[..|records| - 1], pick)
    ensures InOrder(kept, records, pick)
    ensures InOrder(kept + [records[|records| - 1]], records, pick + [|records| - 1])
  {
  }

  lemma {:induction false} WithoutKeepsOrder(records: seq<Record>, domain: string) returns (pick: seq<nat>)
    ensures InOrder(Without(records, domain), records, pick)
  {
    pick := [];
    if records != [] {
      var last := |records| - 1;
      pick := WithoutKeepsOrder(records[..last], domain);
      InOrderGrows(Without(records[..last], domain), records, pick);
      if records[last].domain != domain {
        pick := pick + [last];
      }
    }
  }

  /** A removal drops the domain from the map and keeps the other records in their order; the list
      is empty exactly when the map is. */
  lemma WithoutRefinesMap(records: seq<Record>, domain: string)
    requires Distinct(records)
    ensures var after := Without(records, domain);
      && Distinct(after)
      && ByDomain(after) == ByDomain(records) - {domain}
      && (after == [] <==> ByDomain(records) - {domain} == map[])
      && exists pick :: InOrder(after, records, pick)
  {
    WithoutIsMapRemoval(records, domain);
    var pick := WithoutKeepsOrder(records, domain);
    var after := Without(records, domain);
    forall i, j | 0 <= i < j < |after| ensures after[i].domain != after[j].domain {
      assert records[pick[i]] == after[i] && records[pick[j]] == after[j];
    }
  }
}
