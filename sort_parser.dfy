/** `SortParser`: "field[,direction]" into a `SortOrder`. */
module SortParser {
  import opened Wrappers
  import opened Text

  /** `SortOrder(field, asc)`. */
  datatype SortOrder = SortOrder(field: string, asc: bool)

  /** `str[0]` on the empty array that `split` returns for an all-comma text. */
  datatype ParseError = IndexOutOfBounds(index: nat, length: nat)

  /** The text cut at every comma, empty pieces included. */
  function Segments(s: string): (r: seq<string>)
    ensures |r| >= 1
  {
    if s == [] then [[]]
    else
      var rest := Segments(s[1..]);
      if s[0] == ',' then [[]] + rest else [[s[0]] + rest[0]] + rest[1..]
  }

  function Join(parts: seq<string>): string
    requires |parts| >= 1
  {
    if |parts| == 1 then parts[0] else parts[0] + "," + Join(parts[1..])
  }

  /** Cutting loses nothing: the pieces joined by commas give the text back,
      and no piece holds a comma. */
  lemma {:induction false} SegmentsJoin(s: string)
    ensures Join(Segments(s)) == s
    ensures forall k :: 0 <= k < |Segments(s)| ==> ',' !in Segments(s)[k]
  {
    if s != [] {
      SegmentsJoin(s[1..]);
      var rest := Segments(s[1..]);
      if s[0] == ',' {
        assert Segments(s)[1..] == rest;
      } else {
        var r := Segments(s);
        assert r[0] == [s[0]] + rest[0] && r[1..] == rest[1..];
        if |rest| > 1 {
          assert Join(rest) == rest[0] + "," + Join(rest[1..]);
        }
        forall k | 0 <= k < |r| ensures ',' !in r[k] {
          if k > 0 { assert r[k] == rest[k]; }
        }
      }
      assert s == [s[0]] + s[1..];
    }
  }

  /** The first piece is the text before the first comma. */
  lemma {:induction false} FirstSegment(s: string)
    ensures Segments(s)[0] <= s
    ensures ',' !in Segments(s)[0]
    ensures |Segments(s)[0]| < |s| ==> s[|Segments(s)[0]|] == ','
  {
    if s != [] {
      FirstSegment(s[1..]);
    }
  }

  function DropTrailingEmpty(parts: seq<string>): (r: seq<string>)
    ensures r <= parts
    ensures r != [] ==> r[|r| - 1] != []
    ensures forall k :: 0 <= k < |parts| && parts[k] != [] ==> k < |r|
  {
    if parts == [] then []
    else if parts[|parts| - 1] == [] then DropTrailingEmpty(parts[..|parts| - 1])
    else parts
  }

  /** `String.split(",")`: a text without a comma comes back whole; otherwise
      the pieces with trailing empty ones removed. */
  function Split(s: string): (r: seq<string>)
    ensures r <= Segments(s)
    ensures forall k :: 0 <= k < |r| ==> ',' !in r[k]
    ensures ',' in s && r != [] ==> r[|r| - 1] != []
  {
    SegmentsJoin(s);
    if ',' !in s then NoCommaOneSegment(s); [s] else DropTrailingEmpty(Segments(s))
  }

  /** `parse`. */
  function Parse(input: Option<string>): (r: Result<Option<SortOrder>, ParseError>)
    ensures input.None? ==> r == Success(None)
    ensures input.Some? && r.Success? ==> r.value.Some?
  {
    match input
    case None => Success(None)
    case Some(s) =>
      var str := Split(s);
      if |str| == 0 then Failure(IndexOutOfBounds(0, 0))
      else Success(Some(SortOrder(str[0], |str| < 2 || !EqualsIgnoreCase("desc", str[1]))))
  }

  predicate AllCommas(s: string)
  {
    forall i :: 0 <= i < |s| ==> s[i] == ','
  }

  lemma {:induction false} AllCommasSegments(s: string)
    requires AllCommas(s)
    ensures forall k :: 0 <= k < |Segments(s)| ==> Segments(s)[k] == []
  {
    if s != [] {
      AllCommasSegments(s[1..]);
    }
  }

  lemma {:induction false} SomeSegmentNonEmpty(s: string)
    requires !AllCommas(s)
    ensures exists k :: 0 <= k < |Segments(s)| && Segments(s)[k] != []
  {
    if s[0] != ',' {
      assert Segments(s)[0] != [];
    } else {
      SomeSegmentNonEmpty(s[1..]);
      var k :| 0 <= k < |Segments(s[1..])| && Segments(s[1..])[k] != [];
      assert Segments(s)[k + 1] == Segments(s[1..])[k];
    }
  }

  /** A non-empty text of commas only makes `str[0]` throw; every other text
      parses. */
  lemma ParseFailsIffAllCommas(s: string)
    ensures Parse(Some(s)).Failure? <==> s != [] && AllCommas(s)
  {
    if s != [] && AllCommas(s) {
      assert ',' in s by { assert s[0] == ','; }
      AllCommasSegments(s);
      AllEmptyDropped(Segments(s));
    } else if ',' in s {
      SomeSegmentNonEmpty(s);
    }
  }

  lemma {:induction false} AllEmptyDropped(parts: seq<string>)
    requires forall k :: 0 <= k < |parts| ==> parts[k] == []
    ensures DropTrailingEmpty(parts) == []
  {
    if parts != [] {
      AllEmptyDropped(parts[..|parts| - 1]);
    }
  }

  /** On success the field is the text before the first comma, and the order
      is descending exactly when a second piece exists and is "desc" in any
      case; later pieces play no part. */
  lemma ParseMeaning(s: string)
    requires Parse(Some(s)).Success?
    ensures var order := Parse(Some(s)).value.value;
      var pieces := Segments(s);
      && order.field <= s && ',' !in order.field
      && (|order.field| < |s| ==> s[|order.field|] == ',')
      && (order.asc <==> !(|pieces| >= 2 && EqualsIgnoreCase(pieces[1], "desc")))
  {
    var pieces := Segments(s);
    FirstSegment(s);
    if ',' in s {
      var str := DropTrailingEmpty(pieces);
      assert str[0] == pieces[0];
      if |pieces| >= 2 && EqualsIgnoreCase(pieces[1], "desc") {
        assert |LowerStr(pieces[1])| == 4;
        assert 1 < |str|;
      }
      if |str| >= 2 {
        assert str[1] == pieces[1];
      }
    } else {
      NoCommaOneSegment(s);
    }
  }

  lemma {:induction false} NoCommaOneSegment(s: string)
    requires ',' !in s
    ensures Segments(s) == [s]
  {
    if s != [] {
      assert ',' !in s[1..];
      NoCommaOneSegment(s[1..]);
      assert s == [s[0]] + s[1..];
    }
  }

  /** A comma-free head followed by a comma is the first piece. */
  lemma {:induction false} SegmentsAfterHead(a: string, t: string)
    requires ',' !in a
    ensures Segments(a + "," + t) == [a] + Segments(t)
  {
    if a == [] {
      assert a + "," + t == [','] + t;
      assert ([','] + t)[1..] == t;
    } else {
      var u := a + "," + t;
      assert u[1..] == a[1..] + "," + t;
      assert ',' !in a[1..];
      SegmentsAfterHead(a[1..], t);
      assert a == [a[0]] + a[1..];
    }
  }

  /** "field,direction": the direction decides the order. */
  lemma ParseFieldAndDirection(a: string, d: string)
    requires ',' !in a && ',' !in d && d != []
    ensures Parse(Some(a + "," + d)) == Success(Some(SortOrder(a, !EqualsIgnoreCase("desc", d))))
  {
    var s := a + "," + d;
    assert s[|a|] == ',';
    NoCommaOneSegment(d);
    SegmentsAfterHead(a, d);
    assert Split(s) == [a, d];
  }

  /** "field,": a trailing comma leaves the order ascending. */
  lemma ParseTrailingComma(a: string)
    requires ',' !in a && a != []
    ensures Parse(Some(a + ",")) == Success(Some(SortOrder(a, true)))
  {
    var s := a + ",";
    assert s == a + "," + "";
    assert s[|a|] == ',';
    NoCommaOneSegment("");
    SegmentsAfterHead(a, "");
    assert Segments(s) == [a, ""];
    assert DropTrailingEmpty([a, ""]) == [a] by {
      assert [a, ""][..1] == [a];
    }
  }

  /** "field,direction,more": pieces after the second are ignored. */
  lemma ParseIgnoresRest(a: string, d: string, t: string)
    requires ',' !in a && ',' !in d && d != []
    ensures Parse(Some(a + "," + d + "," + t)) == Success(Some(SortOrder(a, !EqualsIgnoreCase("desc", d))))
  {
    var s := a + "," + d + "," + t;
    assert s == a + "," + (d + "," + t);
    assert s[|a|] == ',';
    SegmentsAfterHead(d, t);
    SegmentsAfterHead(a, d + "," + t);
    var pieces := Segments(s);
    assert pieces == [a, d] + Segments(t);
    TwoPiecesKept(pieces);
  }

  lemma TwoPiecesKept(pieces: seq<string>)
    requires |pieces| >= 2 && pieces[1] != []
    ensures |DropTrailingEmpty(pieces)| >= 2
    ensures DropTrailingEmpty(pieces)[0] == pieces[0] && DropTrailingEmpty(pieces)[1] == pieces[1]
  {
  }

  lemma ExampleTrailingComma()
    ensures Parse(Some("name,")) == Success(Some(SortOrder("name", true)))
  {
    assert "name," == "name" + ",";
    ParseTrailingComma("name");
  }

  lemma ExampleDescendingAnyCase()
    ensures Parse(Some("name,DESC")) == Success(Some(SortOrder("name", false)))
  {
    assert "name,DESC" == "name" + "," + "DESC";
    DescInCapitals();
    ParseFieldAndDirection("name", "DESC");
  }

  lemma DescInCapitals()
    ensures EqualsIgnoreCase("desc", "DESC")
  {
    var upper := LowerStr("DESC");
    assert upper[0] == 'd' && upper[1] == 'e' && upper[2] == 's' && upper[3] == 'c';
    assert upper == "desc";
  }

  lemma ExampleExtraPieces()
    ensures Parse(Some("email,desc,extra")) == Success(Some(SortOrder("email", false)))
  {
    assert "email,desc,extra" == "email" + "," + "desc" + "," + "extra";
    ParseIgnoresRest("email", "desc", "extra");
    assert LowerStr("desc") == "desc";
  }

  lemma ExampleOnlyCommas()
    ensures Parse(Some(",,")).Failure?
  {
    ParseFailsIffAllCommas(",,");
  }
}
