/**
  The part of java.lang.String that the listener relies on: `split` with a
  one-character, non-special pattern and the default limit of zero.

  Java's rule has two steps. If the separator does not occur at all, the
  result is the whole input as its only element (so the empty string splits
  into one empty string). Otherwise the input is cut at every occurrence of
  the separator, which keeps empty fields at the start and in the middle,
  and then all empty fields at the end are dropped.
 */
module JavaString {

  /** The pieces of `s` between occurrences of `sep`, before any trimming. */
  function Fields(s: string, sep: char): (r: seq<string>)
    ensures |r| >= 1
    ensures forall i | 0 <= i < |r| :: sep !in r[i]
    decreases |s|
  {
    if |s| == 0 then [""]
    else
      var rest := Fields(s[1..], sep);
      if s[0] == sep then [""] + rest
      else [[s[0]] + rest[0]] + rest[1..]
  }

  /** Puts the separator back between consecutive fields. */
  function Join(fields: seq<string>, sep: char): string
    decreases |fields|
  {
    if |fields| == 0 then ""
    else if |fields| == 1 then fields[0]
    else fields[0] + [sep] + Join(fields[1..], sep)
  }

  /** Cutting at every separator loses nothing: joining the fields gives back the input. */
  lemma {:induction false} JoinFields(s: string, sep: char)
    ensures Join(Fields(s, sep), sep) == s
    decreases |s|
  {
    if |s| > 0 {
      JoinFields(s[1..], sep);
      var rest := Fields(s[1..], sep);
      if s[0] == sep {
        assert Fields(s, sep) == [""] + rest;
        assert ([""] + rest)[1..] == rest;
        assert s == [sep] + s[1..];
      } else {
        var f := [[s[0]] + rest[0]] + rest[1..];
        assert Fields(s, sep) == f;
        if |rest| > 1 {
          assert f[1..] == rest[1..];
          assert Join(rest, sep) == rest[0] + [sep] + Join(rest[1..], sep);
        }
        assert s == [s[0]] + s[1..];
      }
    }
  }

  /** The other direction: fields free of the separator are recovered by cutting their join. */
  lemma {:induction false} FieldsJoin(fields: seq<string>, sep: char)
    requires |fields| >= 1
    requires forall i | 0 <= i < |fields| :: sep !in fields[i]
    ensures Fields(Join(fields, sep), sep) == fields
    decreases |fields|, |fields[0]|
  {
    var head := fields[0];
    if |fields| == 1 {
      FieldsOfPlain(head, sep);
    } else if |head| == 0 {
      FieldsJoin(fields[1..], sep);
      var s := Join(fields, sep);
      assert s == [sep] + Join(fields[1..], sep);
      assert s[1..] == Join(fields[1..], sep);
      assert fields == [""] + fields[1..];
    } else {
      var shorter := [head[1..]] + fields[1..];
      assert shorter[1..] == fields[1..];
      assert forall i | 0 <= i < |shorter| :: sep !in shorter[i] by {
        forall i | 0 <= i < |shorter| ensures sep !in shorter[i] {
          if i == 0 {
            assert forall k | 0 <= k < |head[1..]| :: head[1..][k] == head[k + 1];
          } else {
            assert shorter[i] == fields[i];
          }
        }
      }
      FieldsJoin(shorter, sep);
      var s := Join(fields, sep);
      assert s == [head[0]] + Join(shorter, sep);
      assert s[1..] == Join(shorter, sep);
      assert head[0] != sep by { assert head[0] in head; }
      assert [head[0]] + head[1..] == head;
      assert fields == [head] + fields[1..];
    }
  }

  /** A string without the separator is a single field. */
  lemma {:induction false} FieldsOfPlain(s: string, sep: char)
    requires sep !in s
    ensures Fields(s, sep) == [s]
    decreases |s|
  {
    if |s| > 0 {
      assert sep !in s[1..] by {
        assert forall k | 0 <= k < |s[1..]| :: s[1..][k] == s[k + 1];
      }
      FieldsOfPlain(s[1..], sep);
      assert s[0] != sep by { assert s[0] in s; }
      assert [s[0]] + s[1..] == s;
    }
  }

  /** Drops the empty strings at the end of `fields`, and only those. */
  function TrimTrailingEmpty(fields: seq<string>): (r: seq<string>)
    ensures |r| <= |fields| && r == fields[..|r|]
    ensures r == [] || r[|r| - 1] != ""
    ensures forall i | |r| <= i < |fields| :: fields[i] == ""
    decreases |fields|
  {
    if |fields| == 0 then []
    else if fields[|fields| - 1] == "" then TrimTrailingEmpty(fields[..|fields| - 1])
    else fields
  }

  /** `s.split(String.valueOf(sep))` for a separator that is not a regular-expression metacharacter. */
  function Split(s: string, sep: char): (r: seq<string>)
    ensures |r| <= |Fields(s, sep)| && r == Fields(s, sep)[..|r|]
    ensures forall i | |r| <= i < |Fields(s, sep)| :: Fields(s, sep)[i] == ""
    ensures forall i | 0 <= i < |r| :: sep !in r[i]
    ensures sep !in s ==> r == [s]
    ensures sep in s ==> r == [] || r[|r| - 1] != ""
  {
    if sep !in s then
      FieldsOfPlain(s, sep);
      [s]
    else
      TrimTrailingEmpty(Fields(s, sep))
  }

  /** What is dropped by Split is only trailing separators: the input is the join of
      the result followed by as many empty fields as were trimmed (none when `sep` does not occur). */
  lemma SplitLosesOnlyTrailingSeparators(s: string, sep: char)
    ensures var r := Split(s, sep);
            var n := |Fields(s, sep)| - |r|;
            Join(r + seq(n, _ => ""), sep) == s
  {
    var f := Fields(s, sep);
    var r := Split(s, sep);
    var n := |f| - |r|;
    var padded := r + seq(n, _ => "");
    if sep !in s {
      FieldsOfPlain(s, sep);
      assert padded == r;
    } else {
      assert forall i | 0 <= i < |f| :: padded[i] == f[i];
    }
    assert padded == f;
    JoinFields(s, sep);
  }

  /** Two addresses separated by one space come back in order. */
  lemma SplitTwoAddresses()
    ensures Split("a@x.com b@y.com", ' ') == ["a@x.com", "b@y.com"]
  {
    FieldsJoin(["a@x.com", "b@y.com"], ' ');
    assert Join(["a@x.com", "b@y.com"], ' ') == "a@x.com b@y.com";
    assert ' ' in "a@x.com b@y.com";
  }

  /** Two consecutive spaces leave an empty entry in the middle. */
  lemma SplitKeepsInteriorEmpty()
    ensures Split("a  b", ' ') == ["a", "", "b"]
  {
    FieldsJoin(["a", "", "b"], ' ');
    assert Join(["a", "", "b"], ' ') == "a  b";
    assert ' ' in "a  b";
  }

  /** A leading space leaves an empty first entry. */
  lemma SplitKeepsLeadingEmpty()
    ensures Split(" a", ' ') == ["", "a"]
  {
    FieldsJoin(["", "a"], ' ');
    assert Join(["", "a"], ' ') == " a";
    assert ' ' in " a";
  }

  /** A trailing space is dropped, and a string of spaces only splits into nothing. */
  lemma SplitDropsTrailingEmpty()
    ensures Split("a ", ' ') == ["a"]
    ensures Split(" ", ' ') == []
  {
    FieldsJoin(["a", ""], ' ');
    assert Join(["a", ""], ' ') == "a ";
    assert ' ' in "a ";
    FieldsJoin(["", ""], ' ');
    assert Join(["", ""], ' ') == " ";
    assert ' ' in " ";
  }
}
