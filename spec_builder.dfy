/** The filter-predicate builder (`SpecBuilder`): a JPA `Specification` is
    modelled as a small predicate tree that the storage evaluates row by row.
    Columns are accessor functions on the row type. `Matches` is SQL
    `lower(column) LIKE pattern`, with `%` and `_` as wildcards. */
module SpecBuilder {
  import opened Wrappers
  import opened Text

  datatype Pred<-T> =
    | Conjunction                                 // cb.conjunction(): accepts every row
    | Matches(text: T -> string, pattern: string) // lower(text) LIKE pattern
    | Equals(column: T -> string, value: string)  // column = value
    | InRange(key: T -> int, from: int, to: int)  // key BETWEEN from AND to
    | AtLeast(key: T -> int, from: int)           // key >= from
    | AtMost(key: T -> int, to: int)              // key <= to
    | Related(ids: T -> set<nat>, id: nat)        // inner join on a relation, then id = ...
    | And(left: Pred<T>, right: Pred<T>)

  /** Whether the storage keeps `row` under predicate `p`. */
  function Eval<T>(p: Pred<T>, row: T): bool
  {
    match p
    case Conjunction => true
    case Matches(text, pattern) => LikeMatch(LowerStr(text(row)), pattern)
    case Equals(column, value) => column(row) == value
    case InRange(key, from, to) => from <= key(row) <= to
    case AtLeast(key, from) => key(row) >= from
    case AtMost(key, to) => key(row) <= to
    case Related(ids, id) => id in ids(row)
    case And(left, right) => Eval(left, row) && Eval(right, row)
  }

  /** SQL `s LIKE p`: `%` matches any run of characters, `_` exactly one. */
  function LikeMatch(s: string, p: string): bool
    decreases |s| + |p|
  {
    if p == [] then s == []
    else if p[0] == '%' then LikeMatch(s, p[1..]) || (s != [] && LikeMatch(s[1..], p))
    else s != [] && (p[0] == '_' || s[0] == p[0]) && LikeMatch(s[1..], p[1..])
  }

  /** No character of v is a LIKE wildcard or the escape character. */
  predicate NoWildcards(v: string)
  {
    forall i :: 0 <= i < |v| ==> v[i] != '%' && v[i] != '_' && v[i] != '\\'
  }

  /** `isBlank`: absent, or the scan for a non-white-space character runs off
      the end. */
  predicate IsBlank(value: Option<string>)
    ensures IsBlank(value) <==> value.None? || IndexOfNonWhitespace(value.value) == |value.value|
  {
    value.None? || IsBlankText(value.value)
  }

  /** `like(field, value)`: the identity for a blank value, otherwise a
      case-insensitive "contains" pattern. */
  function Like<T(!new)>(text: T -> string, value: Option<string>): (p: Pred<T>)
    ensures IsBlank(value) ==> forall row :: Eval(p, row)
  {
    if IsBlank(value) then Conjunction else Matches(text, "%" + LowerStr(value.value) + "%")
  }

  /** `eq(field, value)`: the identity for an absent value, otherwise equality. */
  function Eq<T(!new)>(column: T -> string, value: Option<string>): (p: Pred<T>)
    ensures forall row :: Eval(p, row) <==> value.None? || column(row) == value.value
  {
    if value.None? then Conjunction else Equals(column, value.value)
  }

  /** `between(field, from, to)`: each present bound is inclusive; an absent
      bound does not restrict. */
  function Between<T(!new)>(key: T -> int, from: Option<int>, to: Option<int>): (p: Pred<T>)
    ensures forall row :: Eval(p, row) <==>
      (from.None? || from.value <= key(row)) && (to.None? || key(row) <= to.value)
  {
    if from.Some? && to.Some? then InRange(key, from.value, to.value)
    else if from.Some? then AtLeast(key, from.value)
    else if to.Some? then AtMost(key, to.value)
    else Conjunction
  }

  // ---- LIKE semantics ----

  lemma {:induction false} PercentMatchesAll(s: string)
    ensures LikeMatch(s, "%")
  {
    if s != [] {
      PercentMatchesAll(s[1..]);
    }
  }

  /** A literal followed by `%` matches exactly the strings it prefixes. */
  lemma {:induction false} LiteralPrefixMatch(s: string, v: string)
    requires NoWildcards(v)
    ensures LikeMatch(s, v + "%") <==> |v| <= |s| && s[..|v|] == v
  {
    if v == [] {
      assert v + "%" == "%";
      PercentMatchesAll(s);
    } else {
      assert (v + "%")[1..] == v[1..] + "%";
      assert NoWildcards(v[1..]) by {
        forall i | 0 <= i < |v[1..]| ensures v[1..][i] != '%' && v[1..][i] != '_' && v[1..][i] != '\\' {
          assert v[1..][i] == v[i + 1];
        }
      }
      if s != [] {
        LiteralPrefixMatch(s[1..], v[1..]);
        if |v| <= |s| {
          assert s[..|v|] == [s[0]] + s[1..][..|v| - 1];
          assert v == [v[0]] + v[1..];
        }
      }
    }
  }

  /** A leading `%` skips any prefix of the subject. */
  lemma {:induction false} LeadingPercentMatch(s: string, q: string)
    ensures LikeMatch(s, "%" + q) <==> exists i :: 0 <= i <= |s| && LikeMatch(s[i..], q)
  {
    assert ("%" + q)[1..] == q;
    if s == [] {
      assert s[0..] == s;
    } else {
      LeadingPercentMatch(s[1..], q);
      if LikeMatch(s, "%" + q) {
        if !LikeMatch(s, q) {
          var i :| 0 <= i <= |s[1..]| && LikeMatch(s[1..][i..], q);
          assert s[1..][i..] == s[i + 1..];
        } else {
          assert s[0..] == s;
        }
      } else {
        forall i | 0 <= i <= |s| ensures !LikeMatch(s[i..], q) {
          if i == 0 {
            assert s[0..] == s;
          } else {
            assert s[1..][i - 1..] == s[i..];
          }
        }
      }
    }
  }

  /** `lower(x) LIKE '%' + v + '%'` is substring containment when v has no
      wildcard characters. */
  lemma ContainsPatternMatch(s: string, v: string)
    requires NoWildcards(v)
    ensures LikeMatch(s, "%" + v + "%") <==> IsSubstring(v, s)
  {
    assert "%" + v + "%" == "%" + (v + "%");
    LeadingPercentMatch(s, v + "%");
    if LikeMatch(s, "%" + v + "%") {
      var i :| 0 <= i <= |s| && LikeMatch(s[i..], v + "%");
      LiteralPrefixMatch(s[i..], v);
      assert s[i..][..|v|] == s[i..i + |v|];
      assert OccursAt(v, s, i);
    }
    if IsSubstring(v, s) {
      var i :| 0 <= i <= |s| - |v| && OccursAt(v, s, i);
      LiteralPrefixMatch(s[i..], v);
      assert s[i..][..|v|] == s[i..i + |v|];
    }
  }

  lemma LowerKeepsNoWildcards(v: string)
    requires NoWildcards(v)
    ensures NoWildcards(LowerStr(v))
  {
  }

  /** `like` keeps a row iff the value is blank or the lower-cased column
      contains the lower-cased value (for values without LIKE wildcards). */
  lemma LikeAcceptsIff<T(!new)>(text: T -> string, value: Option<string>, row: T)
    requires value.Some? ==> NoWildcards(value.value)
    ensures Eval(Like(text, value), row) <==>
      IsBlank(value) || IsSubstring(LowerStr(value.value), LowerStr(text(row)))
  {
    if !IsBlank(value) {
      LowerKeepsNoWildcards(value.value);
      ContainsPatternMatch(LowerStr(text(row)), LowerStr(value.value));
    }
  }

  // ---- evaluation of a query over stored rows ----

  /** The rows a query with predicate p returns, each stored row at most once. */
  function Select<T>(p: Pred<T>, rows: seq<T>): seq<T>
  {
    if rows == [] then [] else (if Eval(p, rows[0]) then [rows[0]] else []) + Select(p, rows[1..])
  }

  lemma {:induction false} SelectMembers<T>(p: Pred<T>, rows: seq<T>, x: T)
    ensures x in Select(p, rows) <==> x in rows && Eval(p, x)
  {
    if rows != [] {
      SelectMembers(p, rows[1..], x);
      assert rows == [rows[0]] + rows[1..];
    }
  }

  ghost predicate Distinct<T>(rows: seq<T>)
  {
    forall i, j :: 0 <= i < j < |rows| ==> rows[i] != rows[j]
  }

  /** Filtering never duplicates a row. */
  lemma {:induction false} SelectDistinct<T>(p: Pred<T>, rows: seq<T>)
    requires Distinct(rows)
    ensures Distinct(Select(p, rows))
  {
    if rows != [] {
      SelectDistinct(p, rows[1..]);
      SelectMembers(p, rows[1..], rows[0]);
      assert rows[0] !in rows[1..];
    }
  }

  /** A predicate every row satisfies keeps the whole list. */
  lemma {:induction false} SelectAll<T>(p: Pred<T>, rows: seq<T>)
    requires forall i :: 0 <= i < |rows| ==> Eval(p, rows[i])
    ensures Select(p, rows) == rows
  {
    if rows != [] {
      SelectAll(p, rows[1..]);
      assert rows == [rows[0]] + rows[1..];
    }
  }
}
