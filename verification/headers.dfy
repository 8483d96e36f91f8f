/**
 * HTTP header collections and the three helpers the proxy applies to them:
 * copying one collection onto another, removing the hop-by-hop fields, and
 * extending the X-Forwarded-For chain with the client's address.
 *
 * Field names are taken to be in canonical form already (as the server and
 * the client library deliver them), so a name is compared as it is.
 */
module Headers {
  import opened Wrappers
  import Chain

  /** Field name to its values, in the order they arrived. */
  type Fields = map<string, seq<string>>

  /** The fields that are meaningful for one connection only (section 13.5.1 of RFC 2616). */
  const HopHeaders: seq<string> :=
    ["Connection", "Keep-Alive", "Proxy-Authenticate", "Proxy-Authorization",
     "Te", "Trailers", "Transfer-Encoding", "Upgrade"]

  /** The field that records the addresses a request has been forwarded for. */
  const XForwardedFor: string := "X-Forwarded-For"

  predicate IsHop(name: string) {
    name in HopHeaders
  }

  /** The values held under name; none when the name is absent. */
  function Values(h: Fields, name: string): seq<string> {
    if name in h then h[name] else []
  }

  // ---------------------------------------------------------------------------
  // Specification functions

  /** The collection without its hop-by-hop fields. */
  function Stripped(h: Fields): (r: Fields)
    ensures forall k :: IsHop(k) ==> k !in r
    ensures forall k :: !IsHop(k) ==> (k in r <==> k in h)
    ensures forall k :: k in r ==> r[k] == h[k]
  {
    map k | k in h && !IsHop(k) :: h[k]
  }

  /**
   * The collection d after every value of s has been added to it: each name
   * keeps its own values and gets those of s after them. A name that s holds
   * with no values is not created.
   */
  function Merged(d: Fields, s: Fields): (r: Fields)
    ensures forall k :: k in r <==> k in d || (k in s && s[k] != [])
    ensures forall k :: k in r ==> Values(d, k) <= r[k]
  {
    map k | k in d.Keys + s.Keys && (k in d || s[k] != []) :: Values(d, k) + Values(s, k)
  }

  /**
   * The chain value after host: the earlier values folded into one, then host.
   * Host always ends the value, and after a non-empty chain the value is the
   * join of the whole chain with host as its last entry.
   */
  function ForwardedValue(prior: Option<seq<string>>, host: string): (r: string)
    ensures |host| <= |r| && r[|r| - |host|..] == host
    ensures prior.None? ==> r == host
    ensures prior.Some? && prior.value != [] ==> r == Chain.Join(prior.value + [host], Chain.Sep)
  {
    match prior
    case None => host
    case Some(p) =>
      var v := Chain.Join(p, Chain.Sep) + Chain.Sep + host;
      assert p != [] ==> v == Chain.Join(p + [host], Chain.Sep) by {
        if p != [] {
          Chain.JoinSnoc(p, host, Chain.Sep);
        }
      }
      v
  }

  /** The collection after the client host has been added to the forwarding chain. */
  function WithForwardedFor(h: Fields, host: string): (r: Fields)
    ensures r.Keys == h.Keys + {XForwardedFor}
    ensures forall k :: k in h && k != XForwardedFor ==> r[k] == h[k]
    ensures |r[XForwardedFor]| == 1
    ensures XForwardedFor !in h ==> r[XForwardedFor] == [host]
  {
    var prior := if XForwardedFor in h then Some(h[XForwardedFor]) else None;
    h[XForwardedFor := [ForwardedValue(prior, host)]]
  }

  // ---------------------------------------------------------------------------
  // The header object

  /** A header collection that the proxy changes in place (Go's http.Header). */
  class HeaderMap {
    var fields: Fields

    constructor (init: Fields)
      ensures fields == init
    {
      fields := init;
    }

    /** Appends value to the values of name, creating the name if it is absent. */
    method Add(name: string, value: string)
      modifies this
      ensures fields == old(fields)[name := Values(old(fields), name) + [value]]
    {
      fields := fields[name := Values(fields, name) + [value]];
    }

    /** Removes name and all its values; an absent name is no error. */
    method Del(name: string)
      modifies this
      ensures fields == old(fields) - {name}
    {
      fields := fields - {name};
    }

    /** Replaces every value of name by the single value given. */
    method Set(name: string, value: string)
      modifies this
      ensures fields == old(fields)[name := [value]]
    {
      fields := fields[name := [value]];
    }

    /** Reads the values stored under name, and whether the name is present at all. */
    method Lookup(name: string) returns (values: seq<string>, present: bool)
      ensures present <==> name in fields
      ensures present ==> values == fields[name]
      ensures !present ==> values == []
    {
      present := name in fields;
      values := if present then fields[name] else [];
    }
  }

  // ---------------------------------------------------------------------------
  // The helpers of the proxy

  /**
   * Adds every value of src, name by name and in order, to dst. Nothing in dst
   * is overwritten. The values of src are read before any is added, so copying
   * a collection onto itself doubles each list of values.
   */
  method CopyHeader(dst: HeaderMap, src: HeaderMap)
    modifies dst
    ensures dst.fields == Merged(old(dst.fields), old(src.fields))
    ensures src != dst ==> src.fields == old(src.fields)
  {
    var s := src.fields;
    ghost var d := dst.fields;
    var todo := s.Keys;
    ghost var done: set<string> := {};
    MergedNothing(d);
    assert Only(s, done) == map[];
    while todo != {}
      invariant todo !! done && todo + done == s.Keys
      invariant dst.fields == Merged(d, Only(s, done))
      decreases todo
    {
      var k :| k in todo;
      MergedOneMore(d, Only(s, done), k, s[k]);
      OnlyGrows(s, done, k);
      AddValues(dst, k, s[k]);
      todo := todo - {k};
      done := done + {k};
    }
    assert Only(s, done) == s;
  }

  /** Adds each of values under name, in order: the inner loop of CopyHeader. */
  method AddValues(dst: HeaderMap, name: string, values: seq<string>)
    modifies dst
    ensures dst.fields ==
              if values == [] then old(dst.fields)
              else old(dst.fields)[name := Values(old(dst.fields), name) + values]
  {
    ghost var f := dst.fields;
    var i := 0;
    while i < |values|
      invariant 0 <= i <= |values|
      invariant dst.fields == if i == 0 then f else f[name := Values(f, name) + values[..i]]
    {
      assert i == 0 ==> Values(dst.fields, name) == Values(f, name) + values[..i];
      SliceSnoc(Values(f, name), values, i);
      dst.Add(name, values[i]);
      i := i + 1;
    }
    assert values[..i] == values;
  }

  /** The part of s under the names in keys. */
  function Only(s: Fields, keys: set<string>): Fields {
    map k | k in s && k in keys :: s[k]
  }

  /** Appending the next element of values after pre and its first i elements. */
  lemma SliceSnoc(pre: seq<string>, values: seq<string>, i: nat)
    requires i < |values|
    ensures (pre + values[..i]) + [values[i]] == pre + values[..i + 1]
  {
    assert values[..i + 1] == values[..i] + [values[i]];
  }

  /** Merging a source with one more name k adds the values of k after the destination's. */
  lemma MergedOneMore(d: Fields, s: Fields, k: string, values: seq<string>)
    requires k !in s
    ensures var m := Merged(d, s);
            Merged(d, s[k := values]) == if values == [] then m else m[k := Values(m, k) + values]
  {
    var m := Merged(d, s);
    var r := if values == [] then m else m[k := Values(m, k) + values];
    forall key
      ensures key in r <==> key in d || (key in s[k := values] && s[k := values][key] != [])
      ensures Values(r, key) == Values(d, key) + Values(s[k := values], key)
    {
      MergedKeepsAndAppends(d, s, key);
    }
    MergedUnique(d, s[k := values], r);
  }

  /** Taking one more name of s into the selection. */
  lemma OnlyGrows(s: Fields, keys: set<string>, k: string)
    requires k in s
    ensures Only(s, keys)[k := s[k]] == Only(s, keys + {k})
  {
  }

  /** Merging nothing leaves the destination as it was. */
  lemma MergedNothing(d: Fields)
    ensures Merged(d, map[]) == d
  {
    forall k | k in d
      ensures Merged(d, map[])[k] == d[k]
    {
      assert d[k] + [] == d[k];
    }
  }

  /**
   * Merged is the only collection that holds exactly the names of either side
   * (source names only with values) and, under each, the destination's values
   * followed by the source's.
   */
  lemma MergedUnique(d: Fields, s: Fields, r: Fields)
    requires forall k :: k in r <==> k in d || (k in s && s[k] != [])
    requires forall k :: Values(r, k) == Values(d, k) + Values(s, k)
    ensures r == Merged(d, s)
  {
    var m := Merged(d, s);
    forall k | k in r
      ensures k in m && r[k] == m[k]
    {
      assert Values(r, k) == r[k];
      MergedKeepsAndAppends(d, s, k);
    }
    assert r.Keys == m.Keys;
  }

  /** Removes every hop-by-hop field, one name after another. */
  method DelHopHeaders(header: HeaderMap)
    modifies header
    ensures header.fields == Stripped(old(header.fields))
  {
    ghost var h := header.fields;
    var i := 0;
    while i < |HopHeaders|
      invariant 0 <= i <= |HopHeaders|
      invariant forall k :: k in header.fields <==> k in h && k !in HopHeaders[..i]
      invariant forall k :: k in header.fields ==> header.fields[k] == h[k]
    {
      header.Del(HopHeaders[i]);
      assert HopHeaders[..i + 1] == HopHeaders[..i] + [HopHeaders[i]];
      i := i + 1;
    }
    assert HopHeaders[..i] == HopHeaders;
    assert header.fields.Keys == Stripped(h).Keys;
  }

  /**
   * Puts host at the end of the X-Forwarded-For chain. Earlier values are
   * folded into the one value that replaces them.
   */
  method AppendHostToXForwardHeader(header: HeaderMap, host: string)
    modifies header
    ensures header.fields == WithForwardedFor(old(header.fields), host)
  {
    var prior, present := header.Lookup(XForwardedFor);
    var value := host;
    if present {
      value := Chain.Join(prior, Chain.Sep) + Chain.Sep + host;
    }
    header.Set(XForwardedFor, value);
  }

  // ---------------------------------------------------------------------------
  // Properties

  /** Removing the hop-by-hop fields a second time changes nothing. */
  lemma StrippedIdempotent(h: Fields)
    ensures Stripped(Stripped(h)) == Stripped(h)
  {
  }

  /**
   * Merging keeps what the destination had and adds the source's values
   * after it, duplicates included. A name the source does not hold has no
   * values there, so it keeps exactly the destination's values.
   */
  lemma MergedKeepsAndAppends(d: Fields, s: Fields, k: string)
    ensures Values(Merged(d, s), k) == Values(d, k) + Values(s, k)
  {
  }

  /** Merging into an empty collection gives back the source's non-empty lists unchanged. */
  lemma MergedIntoEmpty(s: Fields)
    ensures forall k :: k in s && s[k] != [] ==> k in Merged(map[], s) && Merged(map[], s)[k] == s[k]
    ensures forall k :: k in Merged(map[], s) ==> k in s
  {
  }

  /**
   * With an earlier non-empty chain, the new value is the chain of all earlier
   * values and then host; read back entry by entry, it gives the earlier values
   * followed by host when no value itself holds the separator.
   */
  lemma {:induction false} ForwardedChainExtends(h: Fields, host: string)
    requires XForwardedFor in h && h[XForwardedFor] != []
    ensures WithForwardedFor(h, host)[XForwardedFor] == [Chain.Join(h[XForwardedFor] + [host], Chain.Sep)]
    ensures (forall i :: 0 <= i < |h[XForwardedFor]| ==> !Chain.HasSep(h[XForwardedFor][i])) && !Chain.HasSep(host)
            ==> Chain.Entries(WithForwardedFor(h, host)[XForwardedFor][0]) == h[XForwardedFor] + [host]
  {
    var p := h[XForwardedFor];
    if (forall i :: 0 <= i < |p| ==> !Chain.HasSep(p[i])) && !Chain.HasSep(host) {
      Chain.EntriesOfJoin(p + [host]);
    }
  }

  /** A present but empty chain yields the separator and then host. */
  lemma ForwardedEmptyPrior(h: Fields, host: string)
    requires XForwardedFor in h && h[XForwardedFor] == []
    ensures WithForwardedFor(h, host)[XForwardedFor] == [", " + host]
  {
    assert Chain.Join([], Chain.Sep) == "";
    assert "" + Chain.Sep == Chain.Sep;
  }

  /** The chain example: one earlier address, then the client's. */
  lemma ForwardedExample()
    ensures WithForwardedFor(map[XForwardedFor := ["10.0.0.5"]], "192.168.1.1")[XForwardedFor]
            == ["10.0.0.5, 192.168.1.1"]
  {
    assert Chain.Join(["10.0.0.5"], Chain.Sep) == "10.0.0.5";
    assert "10.0.0.5" + ", " + "192.168.1.1" == "10.0.0.5, 192.168.1.1";
  }
}
