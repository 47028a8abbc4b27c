/** The friendly renderer: tally phrases with plurals ("2 numbers",
    "1 string") and the English sentence fragment describing an element, with
    "and" between two phrases and an Oxford comma before the last of three or
    more. */
module Friendly {
  import opened Json
  import opened Enumerations
  import opened Tally
  import opened Describer

  /** Decimal digits of a count, as `%d` prints it. */
  function NatToString(n: nat): (s: string)
    ensures |s| >= 1
    ensures forall i :: 0 <= i < |s| ==> '0' <= s[i] <= '9'
    decreases n
  {
    if n < 10 then [('0' as int + n) as char]
    else NatToString(n / 10) + [('0' as int + n % 10) as char]
  }

  /** Reads a string of decimal digits back as a number. */
  function DecimalValue(s: string): (v: nat)
    requires forall i :: 0 <= i < |s| ==> '0' <= s[i] <= '9'
    decreases |s|
  {
    if s == [] then 0
    else 10 * DecimalValue(s[..|s| - 1]) + (s[|s| - 1] as int - '0' as int)
  }

  /** The digits `%d` prints read back as the count they came from. */
  lemma {:induction false} DecimalRoundTrip(n: nat)
    ensures DecimalValue(NatToString(n)) == n
    decreases n
  {
    var s := NatToString(n);
    if n >= 10 {
      DecimalRoundTrip(n / 10);
      assert s[..|s| - 1] == NatToString(n / 10);
    }
  }

  /** The phrase for `count` members of kind `kind`: "<count> <kind>", with a
      plural "s" when the count exceeds one. */
  function Phrase(kind: string, count: nat): (p: string)
    requires count >= 1
  {
    NatToString(count) + " " + kind + (if count > 1 then "s" else "")
  }

  /** A phrase reads back as its parts: the digits before the first space
      are the count, and after it come the kind and the plural "s". */
  lemma PhraseParts(kind: string, count: nat)
    requires count >= 1
    ensures var p, d := Phrase(kind, count), NatToString(count);
      && |p| > |d| && p[..|d|] == d && p[|d|] == ' '
      && DecimalValue(p[..|d|]) == count
      && p[|d| + 1..] == kind + (if count > 1 then "s" else "")
  {
    var p, d := Phrase(kind, count), NatToString(count);
    assert p[..|d|] == d;
    DecimalRoundTrip(count);
  }

  /** A run of digits ends at the first space. */
  lemma DigitsBeforeSpace(d1: string, r1: string, d2: string, r2: string)
    requires forall i :: 0 <= i < |d1| ==> '0' <= d1[i] <= '9'
    requires forall i :: 0 <= i < |d2| ==> '0' <= d2[i] <= '9'
    requires d1 + " " + r1 == d2 + " " + r2
    ensures d1 == d2 && r1 == r2
  {
    var p := d1 + " " + r1;
    assert p[|d1|] == ' ' && p[|d2|] == ' ';
    assert forall i :: 0 <= i < |d1| ==> p[i] == d1[i];
    assert forall i :: 0 <= i < |d2| ==> p[i] == d2[i];
    assert |d1| == |d2|;
    assert d1 == p[..|d1|];
    assert d2 == (d2 + " " + r2)[..|d2|];
    assert r1 == p[|d1| + 1..];
    assert r2 == (d2 + " " + r2)[|d2| + 1..];
  }

  /** Distinct tally entries give distinct phrases. */
  lemma PhraseInjective(k1: string, n1: nat, k2: string, n2: nat)
    requires n1 >= 1 && n2 >= 1
    requires Phrase(k1, n1) == Phrase(k2, n2)
    ensures k1 == k2 && n1 == n2
  {
    var s1, s2 := if n1 > 1 then "s" else "", if n2 > 1 then "s" else "";
    assert Phrase(k1, n1) == NatToString(n1) + " " + (k1 + s1);
    assert Phrase(k2, n2) == NatToString(n2) + " " + (k2 + s2);
    DigitsBeforeSpace(NatToString(n1), k1 + s1, NatToString(n2), k2 + s2);
    DecimalRoundTrip(n1);
    DecimalRoundTrip(n2);
    assert k1 == (k1 + s1)[..|k1|] == (k2 + s2)[..|k2|] == k2;
  }

  /** The phrases descElem produces when the tally's keys are visited in
      `order`: one per key whose count is at least one, in that order. */
  function Phrases(counts: map<string, nat>, order: seq<string>): (ps: seq<string>)
  {
    if order == [] then []
    else
      var k := order[|order| - 1];
      Phrases(counts, order[..|order| - 1]) + (if Count(counts, k) >= 1 then [Phrase(k, Count(counts, k))] else [])
  }

  /** descElem: Go visits the tally's keys in an unspecified order, given
      here as `order`; zero counts are skipped. */
  method DescElem(counts: map<string, nat>, order: seq<string>) returns (list: seq<string>)
    requires Enumerates(order, counts.Keys)
    ensures list == Phrases(counts, order)
  {
    list := [];
    for i := 0 to |order|
      invariant list == Phrases(counts, order[..i])
    {
      assert order[..i + 1][..i] == order[..i];
      var k := order[i];
      var count := counts[k];
      assert Phrases(counts, order[..i + 1])
          == Phrases(counts, order[..i]) + (if count >= 1 then [Phrase(k, count)] else []);
      if count > 1 {
        list := list + [NatToString(count) + " " + k + "s"];
      } else if count == 1 {
        assert Phrase(k, count) == NatToString(count) + " " + k;
        list := list + [NatToString(count) + " " + k];
      }
    }
    assert order[..|order|] == order;
  }

  /** Visiting the keys in two orders one after the other. */
  lemma {:induction false} PhrasesConcat(counts: map<string, nat>, a: seq<string>, b: seq<string>)
    ensures Phrases(counts, a + b) == Phrases(counts, a) + Phrases(counts, b)
    decreases |b|
  {
    if b == [] {
      assert a + b == a;
    } else {
      var b' := b[..|b| - 1];
      assert (a + b)[..|a + b| - 1] == a + b';
      PhrasesConcat(counts, a, b');
    }
  }

  /** A phrase is produced for exactly the visited keys with a non-zero
      count. */
  lemma {:induction false} PhrasesMembers(counts: map<string, nat>, order: seq<string>)
    ensures forall k :: k in order && Count(counts, k) >= 1 ==> Phrase(k, Count(counts, k)) in Phrases(counts, order)
    ensures forall p :: p in Phrases(counts, order) ==>
              exists k :: k in order && Count(counts, k) >= 1 && p == Phrase(k, Count(counts, k))
    decreases |order|
  {
    if order != [] {
      var init := order[..|order| - 1];
      assert order == init + [order[|order| - 1]];
      PhrasesMembers(counts, init);
    }
  }

  /** On a duplicate-free order there is one phrase per non-zero entry. */
  lemma {:induction false} PhrasesLength(counts: map<string, nat>, order: seq<string>)
    requires Distinct(order)
    ensures |Phrases(counts, order)| == |set k | k in order && Count(counts, k) >= 1|
    decreases |order|
  {
    if order != [] {
      var init, last := order[..|order| - 1], order[|order| - 1];
      assert order == init + [last];
      PhrasesLength(counts, init);
      assert last !in init by {
        forall i | 0 <= i < |init| ensures init[i] != last { assert order[i] != order[|order| - 1]; }
      }
      var before := set k | k in init && Count(counts, k) >= 1;
      if Count(counts, last) >= 1 {
        assert (set k | k in order && Count(counts, k) >= 1) == before + {last};
      } else {
        assert (set k | k in order && Count(counts, k) >= 1) == before;
      }
    }
  }

  /** Taking the same key out of two permutations leaves permutations. */
  lemma RemoveMatching(o1: seq<string>, o2: seq<string>, i: nat)
    requires multiset(o1) == multiset(o2) && o1 != []
    requires i < |o2| && o2[i] == o1[|o1| - 1]
    ensures multiset(o1[..|o1| - 1]) == multiset(o2[..i] + o2[i + 1..])
  {
    var init, last, left, right := o1[..|o1| - 1], o1[|o1| - 1], o2[..i], o2[i + 1..];
    assert o1 == init + [last];
    assert o2 == left + [last] + right;
    assert multiset(left + right) == multiset(left) + multiset(right);
    forall y ensures multiset(init)[y] == multiset(left + right)[y] {
      assert multiset(o1)[y] == multiset(o2)[y];
    }
  }

  /** A list is its part before position `i`, the element there and the
      part after it. */
  lemma SplitAt(s: seq<string>, i: nat)
    requires i < |s|
    ensures s == s[..i] + [s[i]] + s[i + 1..]
  {
  }

  /** The inductive step of PhrasesPermutation: the key visited last in one
      order is visited between `left` and `right` in the other. */
  lemma PhrasesPermutationStep(counts: map<string, nat>, init: seq<string>, last: string,
                               left: seq<string>, right: seq<string>)
    requires multiset(Phrases(counts, init)) == multiset(Phrases(counts, left + right))
    ensures multiset(Phrases(counts, init + [last])) == multiset(Phrases(counts, left + [last] + right))
  {
    PhrasesConcat(counts, init, [last]);
    PhrasesAround(counts, left, last, right);
    PhrasesConcat(counts, left, right);
    InsertKeepsPermutation(Phrases(counts, init), Phrases(counts, left), Phrases(counts, right),
                           Phrases(counts, [last]));
  }

  /** Visiting a key between two runs of keys. */
  lemma PhrasesAround(counts: map<string, nat>, left: seq<string>, mid: string, right: seq<string>)
    ensures Phrases(counts, left + [mid] + right)
         == Phrases(counts, left) + Phrases(counts, [mid]) + Phrases(counts, right)
  {
    PhrasesConcat(counts, left + [mid], right);
    PhrasesConcat(counts, left, [mid]);
  }

  /** Inserting the same block at the end of one list and in the middle of a
      permutation of it keeps the two permutations of each other. */
  lemma InsertKeepsPermutation(p: seq<string>, left: seq<string>, right: seq<string>, x: seq<string>)
    requires multiset(p) == multiset(left + right)
    ensures multiset(p + x) == multiset(left + x + right)
  {
    assert multiset(left + right) == multiset(left) + multiset(right);
    assert multiset(left + x + right) == multiset(left) + multiset(x) + multiset(right);
  }

  /** Visiting the keys in a permuted order permutes the phrases. */
  lemma {:induction false} PhrasesPermutation(counts: map<string, nat>, o1: seq<string>, o2: seq<string>)
    requires multiset(o1) == multiset(o2)
    ensures multiset(Phrases(counts, o1)) == multiset(Phrases(counts, o2))
    decreases |o1|
  {
    if o1 == [] {
      assert |o2| == |multiset(o2)| == 0;
    } else {
      var init, last := o1[..|o1| - 1], o1[|o1| - 1];
      assert last in multiset(o2);
      var i :| 0 <= i < |o2| && o2[i] == last;
      var left, right := o2[..i], o2[i + 1..];
      RemoveMatching(o1, o2, i);
      PhrasesPermutation(counts, init, left + right);
      PhrasesPermutationStep(counts, init, last, left, right);
      assert o1 == init + [last];
      SplitAt(o2, i);
    }
  }

  /** Whatever order the map iteration picks, descElem yields the same
      phrases up to their order. */
  lemma PhrasesOrderIndependent(counts: map<string, nat>, o1: seq<string>, o2: seq<string>)
    requires Enumerates(o1, counts.Keys) && Enumerates(o2, counts.Keys)
    ensures multiset(Phrases(counts, o1)) == multiset(Phrases(counts, o2))
  {
    EnumerationsArePermutations(o1, o2, counts.Keys);
    PhrasesPermutation(counts, o1, o2);
  }

  /** A tally whose counts are all positive (as Describe produces) yields one
      phrase per kind, no two alike. */
  lemma PhrasesOfPositiveTally(counts: map<string, nat>, order: seq<string>)
    requires Enumerates(order, counts.Keys)
    requires forall t :: t in counts ==> counts[t] > 0
    ensures |Phrases(counts, order)| == |counts|
    ensures Distinct(Phrases(counts, order))
  {
    PhrasesLength(counts, order);
    assert (set k | k in order && Count(counts, k) >= 1) == counts.Keys;
    PhrasesDistinct(counts, order);
  }

  /** A duplicate-free visiting order yields duplicate-free phrases. */
  lemma {:induction false} PhrasesDistinct(counts: map<string, nat>, order: seq<string>)
    requires Distinct(order)
    ensures Distinct(Phrases(counts, order))
    decreases |order|
  {
    if order != [] {
      var init, last := order[..|order| - 1], order[|order| - 1];
      PhrasesDistinct(counts, init);
      if Count(counts, last) >= 1 {
        var ps := Phrases(counts, init);
        PhrasesMembers(counts, init);
        forall i | 0 <= i < |ps| ensures ps[i] != Phrase(last, Count(counts, last)) {
          assert ps[i] in ps;
          var k :| k in init && Count(counts, k) >= 1 && ps[i] == Phrase(k, Count(counts, k));
          var j :| 0 <= j < |init| && init[j] == k;
          assert order[j] != order[|order| - 1];
          if ps[i] == Phrase(last, Count(counts, last)) {
            PhraseInjective(k, Count(counts, k), last, Count(counts, last));
          }
        }
      }
    }
  }

  /** Go's strings.Join. */
  function Join(items: seq<string>, sep: string): (r: string)
    decreases |items|
  {
    if items == [] then ""
    else if |items| == 1 then items[0]
    else items[0] + sep + Join(items[1..], sep)
  }

  /** The separator goes between neighbouring items: joining is the same
      whether it is built from the front or from the back. */
  lemma {:induction false} JoinLast(items: seq<string>, sep: string)
    requires |items| >= 2
    ensures Join(items, sep) == Join(items[..|items| - 1], sep) + sep + items[|items| - 1]
    decreases |items|
  {
    var n := |items|;
    if n > 2 {
      JoinLast(items[1..], sep);
      assert items[..n - 1][1..] == items[1..][..n - 2];
    }
  }

  /** Reference definition of the serial ("Oxford") list, built from the
      front: "a, b, and c". */
  function SerialList(items: seq<string>): (r: string)
    requires |items| >= 2
    decreases |items|
  {
    if |items| == 2 then items[0] + ", and " + items[1]
    else items[0] + ", " + SerialList(items[1..])
  }

  /** Friendly's three-or-more branch (all but the last joined with commas,
      then ", and " and the last) is the serial list. */
  lemma {:induction false} OxfordIsSerialList(items: seq<string>)
    requires |items| >= 3
    ensures Join(items[..|items| - 1], ", ") + ", and " + items[|items| - 1] == SerialList(items)
    decreases |items|
  {
    var n := |items|;
    var init := items[..n - 1];
    assert init[1..] == items[1..][..n - 2];
    if n == 3 {
      assert Join(init, ", ") == items[0] + ", " + items[1];
    } else {
      OxfordIsSerialList(items[1..]);
      assert Join(init, ", ") == items[0] + ", " + Join(init[1..], ", ");
    }
  }

  /** The sentence fragment for a list of phrases about a container. */
  function Oxfordize(elem: string, inv: seq<string>): (r: string)
    ensures |inv| == 0 ==> r == "an empty " + elem
    ensures |inv| == 1 ==> r == "an " + elem + " with " + inv[0]
    ensures |inv| == 2 ==> r == "an " + elem + " with " + inv[0] + " and " + inv[1]
    ensures |inv| >= 3 ==> r == "an " + elem + " with " + SerialList(inv)
  {
    var count := |inv|;
    if count == 1 then "an " + elem + " with " + inv[0]
    else if count == 2 then
      assert Join(inv[1..], " and ") == inv[1];
      "an " + elem + " with " + Join(inv, " and ")
    else if count > 2 then
      OxfordIsSerialList(inv);
      "an " + elem + " with " + Join(inv[..count - 1], ", ") + ", and " + inv[count - 1]
    else "an empty " + elem
  }

  /** JsonDescription.Friendly, with the iteration order of the tally made
      explicit. */
  function Friendly(jd: JsonDescription, order: seq<string>): (r: string)
    requires Enumerates(order, jd.members.Keys)
    ensures jd.element == "string" || jd.element == "number" ==> r == "a " + jd.element
    ensures jd.element == "true" || jd.element == "false" || jd.element == "null" ==>
              r == "a literal " + jd.element
    ensures jd.element == "object" || jd.element == "array" ==>
              r == Oxfordize(jd.element, Phrases(jd.members, order))
    ensures jd.element !in Kinds ==> r == "undefined"
  {
    var elem := jd.element;
    if elem == "string" || elem == "number" then "a " + elem
    else if elem == "true" || elem == "false" || elem == "null" then "a literal " + elem
    else if elem == "object" || elem == "array" then Oxfordize(elem, Phrases(jd.members, order))
    else "undefined"
  }

  /** A container is called empty exactly when no kind has a non-zero
      count. */
  lemma FriendlyEmpty(jd: JsonDescription, order: seq<string>)
    requires Enumerates(order, jd.members.Keys)
    requires jd.element == "object" || jd.element == "array"
    ensures Friendly(jd, order) == "an empty " + jd.element <==>
              forall t :: t in jd.members ==> jd.members[t] == 0
  {
    var inv := Phrases(jd.members, order);
    PhrasesMembers(jd.members, order);
    var r := Friendly(jd, order);
    if inv != [] {
      assert r[3] == jd.element[0];
      assert ("an empty " + jd.element)[3] == 'e';
      assert inv[0] in inv;
      var k :| k in order && jd.members[k] >= 1 && inv[0] == Phrase(k, jd.members[k]);
    }
    forall t | t in jd.members && jd.members[t] >= 1 ensures Phrase(t, jd.members[t]) in inv {
      assert t in order;
    }
  }

  /** The description Describe returns for invalid input reads "undefined". */
  lemma FriendlyOfDefault()
    ensures Friendly(NewJsonDescription(), []) == "undefined"
  {
  }

  /** `{}` reads as an empty object. */
  lemma FriendlyEmptyObject()
    ensures Friendly(JsonDescription("object", map[]), []) == "an empty object"
  {
  }

  /** Counts print in decimal, with a plural "s" above one. */
  lemma PhraseExamples()
    ensures Phrase("number", 1) == "1 number"
    ensures Phrase("number", 2) == "2 numbers"
    ensures Phrase("string", 1) == "1 string"
  {
  }

  /** The tally {number: 2, string: 1}, visited numbers first, gives one
      phrase per kind, in visiting order. */
  lemma PhrasesOfTwo()
    ensures Phrases(map["number" := 2, "string" := 1], ["number", "string"]) == ["2 numbers", "1 string"]
  {
    PhraseExamples();
    assert ["number", "string"][..1] == ["number"];
  }
}
