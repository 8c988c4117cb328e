/**
 * `readLogin` of the example script: every line of the login file is a
 * `key=value` pair; there are no comment lines.
 */
module ExampleLogin {
  import opened Wrappers
  import opened Strings
  import opened KeysIo

  /**
   * The loop of `readLogin`: each line is right-stripped, split on `=`
   * and stored under its first piece; a line without `=` raises.
   */
  method ReadLogin(lines: seq<string>) returns (r: Option<map<string, string>>)
    ensures r == Keys(lines, false)
  {
    var loginDict: map<string, string> := map[];
    for i := 0 to |lines|
      invariant Keys(lines[..i], false) == Some(loginDict)
    {
      assert lines[..i + 1][..i] == lines[..i];
      var elements := Split(RStrip(lines[i]), '=');
      if |elements| < 2 {
        KeysFailStays(lines, false, i + 1);
        return None;
      }
      loginDict := loginDict[elements[0] := elements[1]];
    }
    assert lines[..|lines|] == lines;
    return Some(loginDict);
  }

  /** Login files without comments read the same way with either reader. */
  lemma {:induction false} SameWithoutComments(lines: seq<string>)
    requires forall j :: 0 <= j < |lines| ==> |lines[j]| > 0 && lines[j][0] != '#'
    ensures Keys(lines, false) == Keys(lines, true)
    decreases |lines|
  {
    if |lines| > 0 {
      SameWithoutComments(lines[..|lines| - 1]);
    }
  }
}
