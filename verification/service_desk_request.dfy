/**
 * `ServiceDeskRequest`: the six-field record the feed emits for each issue,
 * a mutable bean whose fields are nullable Strings.
 */
module ServiceDeskRequests {
  import opened Wrappers
  import opened JavaStrings

  /** The six fields of a request at one moment, in declaration order. */
  datatype RequestFields = RequestFields(
    key: JString,
    summary: JString,
    reporter: JString,
    created: JString,
    status: JString,
    statusCategory: JString)

  /** One `name='value'` element of the rendering; a null value shows as `null`. */
  function Attribute(name: string, value: JString): string
  {
    name + "='" + Show(value) + "'"
  }

  /** The fields as (name, value) pairs, in declaration order. */
  function Attributes(f: RequestFields): seq<(string, JString)>
  {
    [("key", f.key), ("summary", f.summary), ("reporter", f.reporter),
     ("created", f.created), ("status", f.status), ("statusCategory", f.statusCategory)]
  }

  /** The elements joined with ", ". */
  function JoinAttributes(attrs: seq<(string, JString)>): string
  {
    if attrs == [] then ""
    else if |attrs| == 1 then Attribute(attrs[0].0, attrs[0].1)
    else Attribute(attrs[0].0, attrs[0].1) + ", " + JoinAttributes(attrs[1..])
  }

  /** `toString()`: the class name, then the six fields in declaration order. */
  function Render(f: RequestFields): string
  {
    "ServiceDeskRequest{" + JoinAttributes(Attributes(f)) + "}"
  }

  predicate QuoteFree(s: string)
  {
    forall i | 0 <= i < |s| :: s[i] != '\''
  }

  /** The character at position `i` of a concatenation. */
  lemma CharOfConcat(a: string, x: string, i: int)
    ensures 0 <= i < |a| ==> (a + x)[i] == a[i]
    ensures |a| <= i < |a| + |x| ==> (a + x)[i] == x[i - |a|]
  {
  }

  /** Cutting two texts at their first quote: equal texts with quote-free heads have equal heads and tails. */
  lemma SplitAtQuote(a: string, x: string, b: string, y: string)
    requires QuoteFree(a) && QuoteFree(b)
    requires a + x == b + y
    requires x != [] && x[0] == '\'' && y != [] && y[0] == '\''
    ensures a == b && x == y
  {
    var s := a + x;
    if |a| < |b| {
      CharOfConcat(a, x, |a|);
      CharOfConcat(b, y, |a|);
      assert false;
    } else if |b| < |a| {
      CharOfConcat(a, x, |b|);
      CharOfConcat(b, y, |b|);
      assert false;
    }
    assert a == s[..|a|] && b == s[..|b|];
    assert x == s[|a|..] && y == s[|b|..];
  }

  /** Peels one `name='value'` element off two equal texts that start with the same name. */
  lemma PeelAttribute(name: string, v: JString, rest: string, w: JString, rest': string)
    requires QuoteFree(Show(v)) && QuoteFree(Show(w))
    requires Attribute(name, v) + rest == Attribute(name, w) + rest'
    ensures Show(v) == Show(w) && rest == rest'
  {
    var head := name + "='";
    assert Attribute(name, v) + rest == head + (Show(v) + ("'" + rest));
    assert Attribute(name, w) + rest' == head + (Show(w) + ("'" + rest'));
    var s := Attribute(name, v) + rest;
    assert Show(v) + ("'" + rest) == s[|head|..] == Show(w) + ("'" + rest');
    SplitAtQuote(Show(v), "'" + rest, Show(w), "'" + rest');
    assert rest == ("'" + rest)[1..];
  }

  /** A list of two or more elements joins as its first element, ", " and the joined rest. */
  lemma JoinFirst(xs: seq<(string, JString)>, tail: string)
    requires |xs| > 1
    ensures JoinAttributes(xs) + tail == Attribute(xs[0].0, xs[0].1) + (", " + (JoinAttributes(xs[1..]) + tail))
  {
    JoinUnfold(xs);
    Regroup(Attribute(xs[0].0, xs[0].1), ", ", JoinAttributes(xs[1..]), tail);
  }

  /** One unfolding of `JoinAttributes` on two or more elements. */
  lemma JoinUnfold(xs: seq<(string, JString)>)
    requires |xs| > 1
    ensures JoinAttributes(xs) == Attribute(xs[0].0, xs[0].1) + ", " + JoinAttributes(xs[1..])
  {
  }

  /** Concatenation regrouped to the right. */
  lemma Regroup(a: string, b: string, c: string, d: string)
    ensures (a + b + c) + d == a + (b + (c + d))
  {
  }

  /** Two joined lists with the same names and quote-free values, followed by the same text, show the same values. */
  lemma {:induction false} JoinDeterminesValues(xs: seq<(string, JString)>, ys: seq<(string, JString)>, tail: string)
    requires |xs| == |ys|
    requires forall i | 0 <= i < |xs| :: xs[i].0 == ys[i].0
    requires forall i | 0 <= i < |xs| :: QuoteFree(Show(xs[i].1)) && QuoteFree(Show(ys[i].1))
    requires JoinAttributes(xs) + tail == JoinAttributes(ys) + tail
    ensures forall i | 0 <= i < |xs| :: Show(xs[i].1) == Show(ys[i].1)
  {
    if |xs| == 1 {
      PeelAttribute(xs[0].0, xs[0].1, tail, ys[0].1, tail);
    } else if |xs| > 1 {
      var restX := ", " + (JoinAttributes(xs[1..]) + tail);
      var restY := ", " + (JoinAttributes(ys[1..]) + tail);
      JoinFirst(xs, tail);
      JoinFirst(ys, tail);
      PeelAttribute(xs[0].0, xs[0].1, restX, ys[0].1, restY);
      assert JoinAttributes(xs[1..]) + tail == restX[2..];
      assert JoinAttributes(ys[1..]) + tail == restY[2..];
      JoinDeterminesValues(xs[1..], ys[1..], tail);
      forall i | 1 <= i < |xs| ensures Show(xs[i].1) == Show(ys[i].1) {
        assert xs[i] == xs[1..][i - 1] && ys[i] == ys[1..][i - 1];
      }
    }
  }

  /** After the class name, the rendering is the joined attributes and the closing brace. */
  lemma RenderTail(f: RequestFields)
    ensures Render(f)[|"ServiceDeskRequest{"|..] == JoinAttributes(Attributes(f)) + "}"
  {
    var head := "ServiceDeskRequest{";
    assert Render(f) == head + (JoinAttributes(Attributes(f)) + "}");
  }

  /** Moves one `name='value'` element, with its separator, from the rest of a text onto its prefix. */
  lemma ShiftAttribute(prefix: string, sep: string, name: string, lit: string, v: string, rest: string)
    requires lit == sep + name + "='"
    ensures prefix + (sep + ((name + "='" + v + "'") + rest)) == prefix + lit + v + "'" + rest
  {
    assert sep + ((name + "='" + v + "'") + rest) == lit + (v + ("'" + rest));
    assert prefix + (lit + (v + ("'" + rest))) == (prefix + lit) + (v + ("'" + rest));
    assert (prefix + lit) + (v + ("'" + rest)) == ((prefix + lit) + v) + ("'" + rest);
  }

  /** Joining a list with a first element: that element, ", " and the joined rest. */
  lemma JoinCons(x: (string, JString), ys: seq<(string, JString)>)
    requires ys != []
    ensures JoinAttributes([x] + ys) == Attribute(x.0, x.1) + (", " + JoinAttributes(ys))
  {
    var xs := [x] + ys;
    assert xs[0] == x && xs[1..] == ys;
    JoinUnfold(xs);
  }

  /** The six elements joined, nested to the right. */
  lemma JoinSix(f: RequestFields)
    ensures JoinAttributes(Attributes(f)) ==
      Attribute("key", f.key) + (", " + (Attribute("summary", f.summary) + (", " + (Attribute("reporter", f.reporter)
      + (", " + (Attribute("created", f.created) + (", " + (Attribute("status", f.status)
      + (", " + Attribute("statusCategory", f.statusCategory))))))))))
  {
    var a0, a1, a2 := ("key", f.key), ("summary", f.summary), ("reporter", f.reporter);
    var a3, a4, a5 := ("created", f.created), ("status", f.status), ("statusCategory", f.statusCategory);
    assert Attributes(f) == [a0] + ([a1] + ([a2] + ([a3] + ([a4] + [a5]))));
    JoinCons(a4, [a5]);
    JoinCons(a3, [a4] + [a5]);
    JoinCons(a2, [a3] + ([a4] + [a5]));
    JoinCons(a1, [a2] + ([a3] + ([a4] + [a5])));
    JoinCons(a0, [a1] + ([a2] + ([a3] + ([a4] + [a5]))));
  }

  /** Appending or prepending the empty text changes nothing. */
  lemma AppendEmpty(s: string)
    ensures s + "" == s && "" + s == s
  {
  }

  /** Each literal of `toString()` is a separator, a field name and `='`. */
  lemma FirstLabels()
    ensures "key='" == "" + "key" + "='"
    ensures ", summary='" == ", " + "summary" + "='"
    ensures ", reporter='" == ", " + "reporter" + "='"
  {
  }

  lemma LastLabels()
    ensures ", created='" == ", " + "created" + "='"
    ensures ", status='" == ", " + "status" + "='"
    ensures ", statusCategory='" == ", " + "statusCategory" + "='"
  {
  }

  /** The first three elements, moved from right-nested to Java's left-to-right concatenation. */
  lemma FirstThreeFlat(prefix: string, k: string, su: string, re: string, rest: string)
    ensures prefix +
      (("key" + "='" + k + "'") + (", " + (("summary" + "='" + su + "'") + (", " + (("reporter" + "='" + re + "'") + rest))))) ==
      prefix + "key='" + k + "'" + ", summary='" + su + "'" + ", reporter='" + re + "'" + rest
  {
    FirstLabels();
    var r2 := ", " + (("reporter" + "='" + re + "'") + rest);
    var r1 := ", " + (("summary" + "='" + su + "'") + r2);
    AppendEmpty(("key" + "='" + k + "'") + r1);
    ShiftAttribute(prefix, "", "key", "key='", k, r1);
    var p1 := prefix + "key='" + k + "'";
    ShiftAttribute(p1, ", ", "summary", ", summary='", su, r2);
    var p2 := p1 + ", summary='" + su + "'";
    ShiftAttribute(p2, ", ", "reporter", ", reporter='", re, rest);
  }

  /** The last three elements, moved from right-nested to Java's left-to-right concatenation. */
  lemma LastThreeFlat(prefix: string, cr: string, st: string, sc: string)
    ensures prefix + (", " + (("created" + "='" + cr + "'") + (", " + (("status" + "='" + st + "'")
      + (", " + ("statusCategory" + "='" + sc + "'")))))) ==
      prefix + ", created='" + cr + "'" + ", status='" + st + "'" + ", statusCategory='" + sc + "'"
  {
    LastLabels();
    var last := "statusCategory" + "='" + sc + "'";
    AppendEmpty(last);
    var r5 := ", " + last;
    var r4 := ", " + (("status" + "='" + st + "'") + r5);
    ShiftAttribute(prefix, ", ", "created", ", created='", cr, r4);
    var p4 := prefix + ", created='" + cr + "'";
    ShiftAttribute(p4, ", ", "status", ", status='", st, r5);
    var p5 := p4 + ", status='" + st + "'";
    ShiftAttribute(p5, ", ", "statusCategory", ", statusCategory='", sc, "");
    AppendEmpty(p5 + ", statusCategory='" + sc + "'");
  }

  /** The right-nested rendering of six shown values equals Java's left-to-right concatenation of them. */
  lemma NestedIsFlat(k: string, su: string, re: string, cr: string, st: string, sc: string)
    ensures "ServiceDeskRequest{" +
      (("key" + "='" + k + "'") + (", " + (("summary" + "='" + su + "'") + (", " + (("reporter" + "='" + re + "'")
      + (", " + (("created" + "='" + cr + "'") + (", " + (("status" + "='" + st + "'")
      + (", " + ("statusCategory" + "='" + sc + "'"))))))))))) ==
      "ServiceDeskRequest{" +
      "key='" + k + "'" +
      ", summary='" + su + "'" +
      ", reporter='" + re + "'" +
      ", created='" + cr + "'" +
      ", status='" + st + "'" +
      ", statusCategory='" + sc + "'"
  {
    var rest := ", " + (("created" + "='" + cr + "'") + (", " + (("status" + "='" + st + "'")
      + (", " + ("statusCategory" + "='" + sc + "'")))));
    FirstThreeFlat("ServiceDeskRequest{", k, su, re, rest);
    LastThreeFlat("ServiceDeskRequest{" + "key='" + k + "'" + ", summary='" + su + "'" + ", reporter='" + re + "'", cr, st, sc);
  }

  /** The rendering as one flat concatenation, literal by literal, as `toString()` writes it. */
  lemma RenderFlat(f: RequestFields)
    ensures Render(f) ==
      "ServiceDeskRequest{" +
      "key='" + Show(f.key) + "'" +
      ", summary='" + Show(f.summary) + "'" +
      ", reporter='" + Show(f.reporter) + "'" +
      ", created='" + Show(f.created) + "'" +
      ", status='" + Show(f.status) + "'" +
      ", statusCategory='" + Show(f.statusCategory) + "'" +
      "}"
  {
    JoinSix(f);
    NestedIsFlat(Show(f.key), Show(f.summary), Show(f.reporter), Show(f.created), Show(f.status), Show(f.statusCategory));
  }

  /**
   * The rendering determines every field's shown text as long as no field
   * contains an apostrophe: the fields come out in a fixed order, each between
   * its own `name='` and closing quote.
   */
  lemma RenderDeterminesFields(f: RequestFields, g: RequestFields)
    requires QuoteFree(Show(f.key)) && QuoteFree(Show(f.summary)) && QuoteFree(Show(f.reporter))
    requires QuoteFree(Show(f.created)) && QuoteFree(Show(f.status)) && QuoteFree(Show(f.statusCategory))
    requires QuoteFree(Show(g.key)) && QuoteFree(Show(g.summary)) && QuoteFree(Show(g.reporter))
    requires QuoteFree(Show(g.created)) && QuoteFree(Show(g.status)) && QuoteFree(Show(g.statusCategory))
    requires Render(f) == Render(g)
    ensures Show(f.key) == Show(g.key) && Show(f.summary) == Show(g.summary)
    ensures Show(f.reporter) == Show(g.reporter) && Show(f.created) == Show(g.created)
    ensures Show(f.status) == Show(g.status) && Show(f.statusCategory) == Show(g.statusCategory)
  {
    var xs, ys := Attributes(f), Attributes(g);
    RenderTail(f);
    RenderTail(g);
    JoinDeterminesValues(xs, ys, "}");
    assert xs[0].1 == f.key && xs[1].1 == f.summary && xs[2].1 == f.reporter;
    assert xs[3].1 == f.created && xs[4].1 == f.status && xs[5].1 == f.statusCategory;
    assert ys[0].1 == g.key && ys[1].1 == g.summary && ys[2].1 == g.reporter;
    assert ys[3].1 == g.created && ys[4].1 == g.status && ys[5].1 == g.statusCategory;
  }

  class ServiceDeskRequest {
    var key: JString
    var summary: JString
    var reporter: JString
    var created: JString
    var status: JString
    var statusCategory: JString

    /** The six fields as one value. */
    function Fields(): RequestFields
      reads this
    {
      RequestFields(key, summary, reporter, created, status, statusCategory)
    }

    /** The no-argument constructor: every field null. */
    constructor Empty()
      ensures Fields() == RequestFields(None, None, None, None, None, None)
    {
      key, summary, reporter, created, status, statusCategory := None, None, None, None, None, None;
    }

    /** The six-argument constructor: each field takes its argument. */
    constructor (key: JString, summary: JString, reporter: JString, created: JString, status: JString, statusCategory: JString)
      ensures Fields().key == key && Fields().summary == summary && Fields().reporter == reporter
      ensures Fields().created == created && Fields().status == status && Fields().statusCategory == statusCategory
    {
      this.key, this.summary, this.reporter := key, summary, reporter;
      this.created, this.status, this.statusCategory := created, status, statusCategory;
    }

    /** `getKey()` .. `getStatusCategory()` are the fields themselves; each setter changes its own field only. */
    method SetKey(v: JString)
      modifies this
      ensures Fields() == old(Fields()).(key := v)
    {
      key := v;
    }

    method SetSummary(v: JString)
      modifies this
      ensures Fields() == old(Fields()).(summary := v)
    {
      summary := v;
    }

    method SetReporter(v: JString)
      modifies this
      ensures Fields() == old(Fields()).(reporter := v)
    {
      reporter := v;
    }

    method SetCreated(v: JString)
      modifies this
      ensures Fields() == old(Fields()).(created := v)
    {
      created := v;
    }

    method SetStatus(v: JString)
      modifies this
      ensures Fields() == old(Fields()).(status := v)
    {
      status := v;
    }

    method SetStatusCategory(v: JString)
      modifies this
      ensures Fields() == old(Fields()).(statusCategory := v)
    {
      statusCategory := v;
    }

    /** `toString()`. */
    function ToString(): (s: string)
      reads this
      ensures s == Render(Fields())
    {
      RenderFlat(Fields());
      "ServiceDeskRequest{" +
      "key='" + Show(key) + "'" +
      ", summary='" + Show(summary) + "'" +
      ", reporter='" + Show(reporter) + "'" +
      ", created='" + Show(created) + "'" +
      ", status='" + Show(status) + "'" +
      ", statusCategory='" + Show(statusCategory) + "'" +
      "}"
    }
  }
}
