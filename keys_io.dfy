/**
 * `readKeys`: a login file read into a dictionary, one `key=value` per
 * line, lines starting with `#` skipped. The lines are given as the file
 * iterator yields them (each with its line break, none empty); raising is
 * the `None` result.
 */
module KeysIo {
  import opened Wrappers
  import opened Strings

  /**
   * One `key=value` line: right-stripped and split on `=`, the first piece
   * is the key and the second the value; pieces after the second are
   * dropped, and a line without `=` has no second piece (the IndexError
   * case).
   */
  function ParseLine(line: string): Option<(string, string)> {
    var elements := Split(RStrip(line), '=');
    if |elements| < 2 then None else Some((elements[0], elements[1]))
  }

  /**
   * A line parses exactly when its stripped text has an `=`; then key and
   * value are free of `=`, and the stripped text is `key=value` or starts
   * with `key=value=`.
   */
  lemma ParseLineMeaning(line: string)
    ensures ParseLine(line).Some? <==> '=' in RStrip(line)
    ensures ParseLine(line).Some? ==>
      var (k, v) := ParseLine(line).value;
      '=' !in k && '=' !in v && (RStrip(line) == k + "=" + v || k + "=" + v + "=" <= RStrip(line))
  {
    var s := RStrip(line);
    var ps := Split(s, '=');
    SplitSinglePiece(s, '=');
    if |ps| >= 2 {
      assert s == ps[0] + "=" + Join(ps[1..], '=') by {
        JoinSplit(s, '=');
        JoinFirst(ps, '=');
      }
      assert Join(ps[1..], '=') == ps[1] + (if |ps| == 2 then "" else "=" + Join(ps[2..], '=')) by {
        JoinFirst(ps[1..], '=');
        assert ps[1..][0] == ps[1] && ps[1..][1..] == ps[2..];
      }
      if |ps| > 2 {
        var k, v, rest := ps[0], ps[1], Join(ps[2..], '=');
        assert s == (k + "=" + v + "=") + rest;
      }
    }
  }

  /** A line starting with `#`. */
  predicate IsComment(line: string) {
    |line| > 0 && line[0] == '#'
  }

  /**
   * What one line puts in the dictionary, when comments are skipped
   * (`readKeys`) or not (`readLogin`): nothing for a comment, otherwise
   * its key and value; `None` when the line raises.
   */
  function Insert(m: map<string, string>, line: string, skipComments: bool): Option<map<string, string>> {
    if skipComments && |line| == 0 then None
    else if skipComments && line[0] == '#' then Some(m)
    else match ParseLine(line)
      case None => None
      case Some(kv) => Some(m[kv.0 := kv.1])
  }

  /** The dictionary read from `lines`, line by line; `None` once a line raises. */
  function Keys(lines: seq<string>, skipComments: bool): Option<map<string, string>>
    decreases |lines|
  {
    if |lines| == 0 then Some(map[])
    else match Keys(lines[..|lines| - 1], skipComments)
      case None => None
      case Some(m) => Insert(m, lines[|lines| - 1], skipComments)
  }

  /** The entry a line contributes, if any: none for a skipped comment or a line that raises. */
  function Entry(line: string, skipComments: bool): Option<(string, string)> {
    if skipComments && IsComment(line) then None else ParseLine(line)
  }

  /** A line that raises: an empty line where comments are looked for, or a non-comment line with no `=`. */
  predicate Raises(line: string, skipComments: bool) {
    (skipComments && |line| == 0) || (!(skipComments && IsComment(line)) && ParseLine(line).None?)
  }

  /** Whether a line raises does not depend on what was read before it. */
  lemma InsertCases(m: map<string, string>, line: string, skipComments: bool)
    ensures Insert(m, line, skipComments).None? <==> Raises(line, skipComments)
    ensures Insert(m, line, skipComments).Some? ==>
      Insert(m, line, skipComments).value ==
        if Entry(line, skipComments).Some? then m[Entry(line, skipComments).value.0 := Entry(line, skipComments).value.1]
        else m
  {
  }

  /** Reading fails exactly when some line raises. */
  lemma {:induction false} KeysFailIff(lines: seq<string>, skipComments: bool)
    ensures Keys(lines, skipComments).None? <==> exists j :: 0 <= j < |lines| && Raises(lines[j], skipComments)
    decreases |lines|
  {
    if |lines| > 0 {
      var init := lines[..|lines| - 1];
      KeysFailIff(init, skipComments);
      assert forall j :: 0 <= j < |init| ==> init[j] == lines[j];
      match Keys(init, skipComments)
      case None =>
      case Some(m) => InsertCases(m, lines[|lines| - 1], skipComments);
    }
  }

  /** The entry of each line, in order. */
  function Entries(lines: seq<string>, skipComments: bool): (es: seq<Option<(string, string)>>)
    ensures |es| == |lines|
    ensures forall j :: 0 <= j < |lines| ==> es[j] == Entry(lines[j], skipComments)
  {
    seq(|lines|, j requires 0 <= j < |lines| => Entry(lines[j], skipComments))
  }

  /** Entry `j` carries key `k`. */
  predicate Carries(es: seq<Option<(string, string)>>, j: int, k: string)
    requires 0 <= j < |es|
  {
    es[j].Some? && es[j].value.0 == k
  }

  /** Entry `j` is present and no later entry carries its key. */
  predicate LastCarrier(es: seq<Option<(string, string)>>, j: int)
    requires 0 <= j < |es|
  {
    es[j].Some? && forall l :: j < l < |es| ==> !Carries(es, l, es[j].value.0)
  }

  /** The dictionary holds exactly the keys of the entries, each with the value of its last entry. */
  ghost predicate Holds(m: map<string, string>, es: seq<Option<(string, string)>>) {
    (forall k :: k in m <==> exists j :: 0 <= j < |es| && Carries(es, j, k)) &&
    (forall j :: 0 <= j < |es| && LastCarrier(es, j) ==> es[j].value.0 in m && m[es[j].value.0] == es[j].value.1)
  }

  /**
   * When reading succeeds, the keys are exactly those of the entry lines,
   * and each key holds the value of the last line that carries it.
   */
  lemma {:induction false} KeysContents(lines: seq<string>, skipComments: bool)
    requires Keys(lines, skipComments).Some?
    ensures Holds(Keys(lines, skipComments).value, Entries(lines, skipComments))
    decreases |lines|
  {
    if |lines| > 0 {
      var n := |lines| - 1;
      var init := lines[..n];
      KeysContents(init, skipComments);
      var m := Keys(init, skipComments).value;
      InsertCases(m, lines[n], skipComments);
      var es := Entries(lines, skipComments);
      assert Entries(init, skipComments) == es[..n];
      HoldsStep(m, Keys(lines, skipComments).value, es);
    }
  }

  /** One more entry read: it is the only change to the dictionary. */
  lemma HoldsStep(m: map<string, string>, mm: map<string, string>, es: seq<Option<(string, string)>>)
    requires |es| > 0 && Holds(m, es[..|es| - 1])
    requires var e := es[|es| - 1]; mm == if e.Some? then m[e.value.0 := e.value.1] else m
    ensures Holds(mm, es)
  {
    var n := |es| - 1;
    var init := es[..n];
    assert forall j, k :: 0 <= j < n ==> (Carries(init, j, k) <==> Carries(es, j, k));
    forall k
      ensures k in mm <==> exists j :: 0 <= j < |es| && Carries(es, j, k)
    {
      if k in mm && k !in m {
        assert Carries(es, n, k);
      }
      if k in m {
        var j :| 0 <= j < n && Carries(init, j, k);
        assert Carries(es, j, k);
      }
    }
    forall j | 0 <= j < |es| && LastCarrier(es, j)
      ensures es[j].value.0 in mm && mm[es[j].value.0] == es[j].value.1
    {
      var k := es[j].value.0;
      if j < n {
        assert init[j] == es[j];
        assert LastCarrier(init, j) by {
          forall l | j < l < n ensures !Carries(init, l, k) {
            assert !Carries(es, l, k);
          }
        }
        assert k in m && m[k] == es[j].value.1;
        assert !Carries(es, n, k);
        assert mm[k] == m[k];
      } else {
        assert mm == m[k := es[j].value.1];
      }
    }
  }

  /** Extra pieces are dropped: `k=v=w` reads as key `k`, value `v`. */
  lemma ExtraPiecesDropped(k: string, v: string, w: string)
    requires '=' !in k && '=' !in v && '=' !in w && |w| > 0 && !IsSpace(w[|w| - 1])
    ensures ParseLine(k + "=" + v + "=" + w + "\n") == Some((k, v))
  {
    assert Join([k, v, w], '=') == k + "=" + v + "=" + w by {
      assert [k, v, w][1..] == [v, w];
      assert [v, w][1..] == [w];
      assert Join([v, w], '=') == v + "=" + w;
      assert k + "=" + (v + "=" + w) == k + "=" + v + "=" + w;
    }
    SplitJoin([k, v, w], '=');
    RStripTrailing(k + "=" + v + "=" + w, "\n");
  }

  /** Two lines with the same key: the later one's value is kept. */
  lemma LaterLineWins(k: string, v1: string, v2: string)
    requires '=' !in k && (|k| == 0 || k[0] != '#')
    requires '=' !in v1 && |v1| > 0 && !IsSpace(v1[|v1| - 1])
    requires '=' !in v2 && |v2| > 0 && !IsSpace(v2[|v2| - 1])
    ensures Keys([k + "=" + v1 + "\n", k + "=" + v2 + "\n"], true) == Some(map[k := v2])
  {
    var l1, l2 := k + "=" + v1 + "\n", k + "=" + v2 + "\n";
    OneEntry(k, v1);
    OneEntry(k, v2);
    assert l1[0] != '#' && l2[0] != '#' by {
      if |k| > 0 {
        assert l1[0] == k[0] && l2[0] == k[0];
      }
    }
    assert Keys([l1], true) == Some(map[k := v1]) by {
      assert [l1][..0] == [];
    }
    assert [l1, l2][..1] == [l1];
    assert map[k := v1][k := v2] == map[k := v2];
  }

  /** A line `k=v` followed by a line break parses as `(k, v)`. */
  lemma OneEntry(k: string, v: string)
    requires '=' !in k && '=' !in v && |v| > 0 && !IsSpace(v[|v| - 1])
    ensures ParseLine(k + "=" + v + "\n") == Some((k, v))
  {
    assert Join([k, v], '=') == k + "=" + v by {
      assert [k, v][1..] == [v];
    }
    SplitJoin([k, v], '=');
    RStripTrailing(k + "=" + v, "\n");
  }

  /** A blank line raises: stripped, it splits into one empty piece. */
  lemma BlankLineRaises(skipComments: bool)
    ensures Keys(["\n"], skipComments).None?
  {
    RStripTrailing("", "\n");
    assert ["\n"][..0] == [];
  }

  /** A `#` line is skipped by `readKeys`, but read as an ordinary line, its key starting with `#`, by `readLogin`. */
  lemma CommentLine(k: string, v: string)
    requires '=' !in k && '=' !in v && |v| > 0 && !IsSpace(v[|v| - 1])
    ensures Keys(["#" + k + "=" + v + "\n"], true) == Some(map[])
    ensures Keys(["#" + k + "=" + v + "\n"], false) == Some(map["#" + k := v])
  {
    var line := "#" + k + "=" + v + "\n";
    assert [line][..0] == [];
    OneEntry("#" + k, v);
    assert line == ("#" + k) + "=" + v + "\n";
  }

  /**
   * The loop of `readKeys`: each line whose first character is not `#` is
   * split and stored under its key; the first line that raises stops the
   * reading.
   */
  method ReadKeys(lines: seq<string>) returns (r: Option<map<string, string>>)
    ensures r == Keys(lines, true)
  {
    var loginDict: map<string, string> := map[];
    for i := 0 to |lines|
      invariant Keys(lines[..i], true) == Some(loginDict)
    {
      var line := lines[i];
      assert lines[..i + 1][..i] == lines[..i];
      if |line| == 0 {
        KeysFailStays(lines, true, i + 1);
        return None;
      }
      if line[0] != '#' {
        var elements := Split(RStrip(line), '=');
        if |elements| < 2 {
          KeysFailStays(lines, true, i + 1);
          return None;
        }
        loginDict := loginDict[elements[0] := elements[1]];
      }
    }
    assert lines[..|lines|] == lines;
    return Some(loginDict);
  }

  /** Once a prefix of the lines raises, the whole reading does. */
  lemma {:induction false} KeysFailStays(lines: seq<string>, skipComments: bool, i: nat)
    requires i <= |lines| && Keys(lines[..i], skipComments).None?
    ensures Keys(lines, skipComments).None?
    decreases |lines| - i
  {
    if i < |lines| {
      assert lines[..i + 1][..i] == lines[..i];
      KeysFailStays(lines, skipComments, i + 1);
    } else {
      assert lines[..i] == lines;
    }
  }
}
