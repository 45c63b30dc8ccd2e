/** Log line assembly (`load_tag` and the prefix handling of
    `StartupController.write_log`). Writing the line to the log file and to
    the console is not modelled; a log is the sequence of `write_log` calls. */
module Log {

  const Banner: string := "STARTUP CONTROLLER"

  /** `"[x] "`, one bracketed label. */
  function Label(x: string): (r: string)
    ensures |r| == |x| + 3
    ensures r[0] == '[' && r[|r| - 2] == ']' && r[|r| - 1] == ' '
    ensures r[1..|x| + 1] == x
  {
    "[" + x + "] "
  }

  /** The labels of `xs`, in order. */
  function Labels(xs: seq<string>): string {
    if |xs| == 0 then "" else Labels(xs[..|xs| - 1]) + Label(xs[|xs| - 1])
  }

  /** The labels of a concatenation are the concatenation of the labels. */
  lemma {:induction false} LabelsAppend(xs: seq<string>, ys: seq<string>)
    ensures Labels(xs + ys) == Labels(xs) + Labels(ys)
  {
    if |ys| > 0 {
      var zs := xs + ys;
      var ys' := ys[..|ys| - 1];
      assert zs[..|zs| - 1] == xs + ys';
      assert zs[|zs| - 1] == ys[|ys| - 1];
      LabelsAppend(xs, ys');
      calc {
        Labels(zs);
        Labels(xs + ys') + Label(ys[|ys| - 1]);
        Labels(xs) + Labels(ys') + Label(ys[|ys| - 1]);
        Labels(xs) + Labels(ys);
      }
    } else {
      assert xs + ys == xs;
    }
  }

  /** `load_tag(text, args=tags, prefixes=prefixes)`: one `"[p] "` per prefix,
      then one `"[t] "` per tag, then the text unchanged. */
  method LoadTag(text: string, tags: seq<string>, prefixes: seq<string>) returns (r: string)
    ensures r == Labels(prefixes + tags) + text
  {
    var acc := "";
    var i := 0;
    while i < |prefixes|
      invariant 0 <= i <= |prefixes|
      invariant acc == Labels(prefixes[..i])
    {
      assert prefixes[..i + 1][..i] == prefixes[..i];
      acc := acc + Label(prefixes[i]);
      i := i + 1;
    }
    assert prefixes[..|prefixes|] == prefixes;
    assert prefixes + tags[..0] == prefixes;
    var j := 0;
    while j < |tags|
      invariant 0 <= j <= |tags|
      invariant acc == Labels(prefixes + tags[..j])
    {
      assert (prefixes + tags[..j + 1])[..|prefixes| + j] == prefixes + tags[..j];
      acc := acc + Label(tags[j]);
      j := j + 1;
    }
    assert tags[..|tags|] == tags;
    r := acc + text;
  }

  /** One `write_log(text, *tags, prefixes=extra)` call. */
  datatype Entry = Entry(text: string, tags: seq<string>, prefixes: seq<string>)

  /** The line an entry prints: the banner label always first, then the
      extra prefixes, then the tags, then the text. */
  function Render(e: Entry): (r: string)
    ensures r == Label(Banner) + Labels(e.prefixes + e.tags) + e.text
  {
    LabelsAppend([Banner], e.prefixes + e.tags);
    assert [Banner] + e.prefixes + e.tags == [Banner] + (e.prefixes + e.tags);
    assert Labels([Banner]) == Label(Banner) by {
      assert [Banner][..0] == [];
    }
    Labels([Banner] + e.prefixes + e.tags) + e.text
  }

  /** `app.log(text, *prefixes)`: the app's name is the one tag. */
  function AppEntry(name: string, text: string): (e: Entry)
    ensures e.tags == [name] && e.prefixes == [] && e.text == text
  {
    Entry(text, [name], [])
  }
}
