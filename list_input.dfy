/**
 * Comma-separated list fields of the election forms: the proposal names
 * and the voter addresses are typed (or imported) as one text each and cut
 * into items on commas, each item trimmed.
 */
module ListInput {
  import opened JsString

  /** An item as it comes out of ParseList: no comma inside, no white space
      at either end. */
  predicate IsItem(x: string) {
    ',' !in x && (x == [] || (!IsSpace(x[0]) && !IsSpace(x[|x| - 1])))
  }

  lemma NotInSlice(s: string, c: char, a: nat, b: nat)
    requires a <= b <= |s| && c !in s
    ensures c !in s[a..b]
  {
  }

  /** Trimming adds no character. */
  lemma TrimKeepsOut(s: string, c: char)
    requires c !in s
    ensures c !in Trim(s)
  {
    var t := TrimStart(s);
    NotInSlice(s, c, |s| - |t|, |s|);
    assert t == s[|s| - |t|..|s|];
    var r := TrimEnd(t);
    NotInSlice(t, c, 0, |r|);
    assert r == t[0..|r|];
  }

  /** `s.split(',').map(p => p.trim())`: one item more than there are
      commas, in input order, each a clean item. */
  function ParseList(s: string): (r: seq<string>)
    ensures |r| == Count(s, ',') + 1
    ensures forall i :: 0 <= i < |r| ==> IsItem(r[i])
  {
    var parts := Split(s, ',');
    forall i | 0 <= i < |parts| ensures IsItem(Trim(parts[i])) {
      TrimKeepsOut(parts[i], ',');
    }
    TrimAll(parts)
  }

  /** The list with a space put in front of every item but the first. */
  function Padded(items: seq<string>): (r: seq<string>)
    requires |items| >= 1
    ensures |r| == |items| && r[0] == items[0]
    ensures forall i :: 1 <= i < |items| ==> r[i] == " " + items[i]
  {
    [items[0]] + seq(|items| - 1, i requires 0 <= i < |items| - 1 => " " + items[i + 1])
  }

  lemma JoinSpaceHead(x: string, rest: seq<string>)
    ensures Join([" " + x] + rest, [',']) == " " + Join([x] + rest, [','])
  {
    if rest != [] {
      assert ([" " + x] + rest)[1..] == rest;
      assert ([x] + rest)[1..] == rest;
    }
  }

  /** Joining with ", " is joining the padded items with ",". */
  lemma {:induction false} JoinCommaSpace(items: seq<string>)
    requires |items| >= 1
    ensures Join(items, ", ") == Join(Padded(items), [','])
  {
    if |items| > 1 {
      var rest := items[1..];
      JoinCommaSpace(rest);
      var tail := Padded(items)[2..];
      assert Padded(rest) == [rest[0]] + tail;
      assert Padded(items)[1..] == [" " + rest[0]] + tail;
      JoinSpaceHead(rest[0], tail);
      assert Join(items, ", ") == items[0] + ", " + Join(rest, ", ");
      assert Join(Padded(items), [',']) == items[0] + [','] + Join(Padded(items)[1..], [',']);
    }
  }

  lemma TrimItem(lead: string, x: string)
    requires lead == [] || lead == " "
    requires IsItem(x)
    ensures Trim(lead + x) == x
  {
    assert AllSpace(lead) by {
      if lead == " " {
        assert IsSpace(lead[0]);
      }
    }
    assert x == [] || (!IsSpace(x[0]) && !IsSpace(x[|x| - 1]));
    TrimOfPadded(lead, x, []);
    assert lead + x + [] == lead + x;
  }

  lemma TrimAllPadded(items: seq<string>)
    requires |items| >= 1
    requires forall i :: 0 <= i < |items| ==> IsItem(items[i])
    ensures TrimAll(Padded(items)) == items
  {
    var p := Padded(items);
    var t := TrimAll(p);
    forall i | 0 <= i < |items| ensures t[i] == items[i] {
      assert t[i] == Trim(p[i]);
      if i == 0 {
        TrimItem([], items[i]);
      } else {
        assert p[i] == " " + items[i];
        TrimItem(" ", items[i]);
      }
    }
  }

  lemma SplitCommaSpace(items: seq<string>)
    requires |items| >= 1
    requires forall i :: 0 <= i < |items| ==> ',' !in items[i]
    ensures Split(Join(items, ", "), ',') == Padded(items)
  {
    var p := Padded(items);
    forall i | 0 <= i < |p| ensures ',' !in p[i] {
      if i > 0 {
        assert p[i] == " " + items[i];
      }
    }
    JoinCommaSpace(items);
    SplitJoin(p, ',');
  }

  /** Joining clean items with ", " and parsing the text again gives back
      the items. */
  lemma ParseListJoin(items: seq<string>)
    requires |items| >= 1
    requires forall i :: 0 <= i < |items| ==> IsItem(items[i])
    ensures ParseList(Join(items, ", ")) == items
  {
    SplitCommaSpace(items);
    TrimAllPadded(items);
  }
}
