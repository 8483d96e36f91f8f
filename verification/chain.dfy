/**
 * The forwarding chain: a list of addresses written as one header value,
 * its entries separated by a comma and a space ("10.0.0.5, 192.168.1.1").
 * Join is the string building the proxy does when it folds earlier
 * X-Forwarded-For values into one; Entries reads such a value back.
 */
module Chain {

  /** The separator the proxy puts between the entries of the chain. */
  const Sep: string := ", "

  /** The parts, in order, with sep between each two neighbours (Go's strings.Join). */
  function Join(parts: seq<string>, sep: string): (r: string)
    ensures |parts| == 0 ==> r == ""
    ensures |parts| > 0 ==> parts[0] <= r
    ensures |parts| > 1 ==> parts[0] + sep <= r
    ensures |parts| > 0 ==> |parts[|parts| - 1]| <= |r| && r[|r| - |parts[|parts| - 1]|..] == parts[|parts| - 1]
    decreases |parts|
  {
    if |parts| == 0 then ""
    else if |parts| == 1 then parts[0]
    else parts[0] + sep + Join(parts[1..], sep)
  }

  /** Joining one more part onto a non-empty list puts sep and that part at the end. */
  lemma {:induction false} JoinSnoc(parts: seq<string>, last: string, sep: string)
    requires |parts| > 0
    ensures Join(parts + [last], sep) == Join(parts, sep) + sep + last
    decreases |parts|
  {
    if |parts| > 1 {
      assert (parts + [last])[1..] == parts[1..] + [last];
      JoinSnoc(parts[1..], last, sep);
    }
  }

  /** The value contains the separator somewhere. */
  predicate HasSep(s: string) {
    exists i :: 0 <= i < |s| - 1 && s[i] == ',' && s[i + 1] == ' '
  }

  /** The entries of a chain value: the pieces between the separators, in order. */
  function Entries(v: string): (r: seq<string>)
    ensures |r| > 0
    decreases |v|
  {
    if |v| < 2 then [v]
    else if v[0] == ',' && v[1] == ' ' then [""] + Entries(v[2..])
    else
      var rest := Entries(v[1..]);
      [[v[0]] + rest[0]] + rest[1..]
  }

  /** A value without a separator is a single entry. */
  lemma {:induction false} EntriesOfPlain(e: string)
    requires !HasSep(e)
    ensures Entries(e) == [e]
    decreases |e|
  {
    if |e| >= 2 {
      assert !(e[0] == ',' && e[1] == ' ');
      assert !HasSep(e[1..]) by {
        forall i | 0 <= i < |e[1..]| - 1
          ensures !(e[1..][i] == ',' && e[1..][i + 1] == ' ')
        {
          assert e[1..][i] == e[i + 1] && e[1..][i + 1] == e[i + 2];
        }
      }
      EntriesOfPlain(e[1..]);
      assert [e[0]] + e[1..] == e;
    }
  }

  /** A first entry without a separator, then the separator, then the rest. */
  lemma {:induction false} EntriesCons(e: string, t: string)
    requires !HasSep(e)
    ensures Entries(e + Sep + t) == [e] + Entries(t)
    decreases |e|
  {
    var v := e + Sep + t;
    if |e| == 0 {
      assert v == Sep + t;
      assert v[2..] == t;
    } else {
      assert v[0] == e[0];
      assert !(v[0] == ',' && v[1] == ' ') by {
        if |e| == 1 {
          assert v[1] == ',';
        } else {
          assert v[1] == e[1];
        }
      }
      assert !HasSep(e[1..]) by {
        forall i | 0 <= i < |e[1..]| - 1
          ensures !(e[1..][i] == ',' && e[1..][i + 1] == ' ')
        {
          assert e[1..][i] == e[i + 1] && e[1..][i + 1] == e[i + 2];
        }
      }
      assert v[1..] == e[1..] + Sep + t;
      EntriesCons(e[1..], t);
      assert [e[0]] + e[1..] == e;
    }
  }

  /**
   * Reading a joined chain back gives the list it was built from, as long as
   * no entry contains the separator itself.
   */
  lemma {:induction false} EntriesOfJoin(parts: seq<string>)
    requires |parts| > 0
    requires forall i :: 0 <= i < |parts| ==> !HasSep(parts[i])
    ensures Entries(Join(parts, Sep)) == parts
    decreases |parts|
  {
    if |parts| == 1 {
      EntriesOfPlain(parts[0]);
    } else {
      EntriesOfJoin(parts[1..]);
      EntriesCons(parts[0], Join(parts[1..], Sep));
      assert [parts[0]] + parts[1..] == parts;
    }
  }
}
