/** The two lists GetConfig fills besides the settings: the free-form
    `data` section (getData in public.go) and the blocked-ip file. The
    loops that build them are Config.GetData and Config.GetConfig
    (config.dfy). */
module Data {
  import opened GoStrings
  import opened Lines
  import opened Defs
  import opened Scan

  /** The `data` header: a line that is not skipped and whose trimmed,
      lower-cased text starts with `data`. */
  predicate DataHeader(line: string) {
    !TopSkip(line) && HasPrefix(ToLower(Trim(line)), "data")
  }

  /** The first `data` header at or after `i`, or -1. */
  function FindData(lines: seq<string>, i: nat): (r: int)
    ensures r == -1 || (i <= r < |lines| && DataHeader(lines[r]))
    ensures forall k :: i <= k < (if r < 0 then |lines| else r) ==> !DataHeader(lines[k])
    decreases |lines| - i
  {
    if i >= |lines| then -1
    else if DataHeader(lines[i]) then i
    else FindData(lines, i + 1)
  }

  /** The fields after the key, each non-empty one prefixed by one space. */
  function JoinFields(fs: seq<string>): (v: string)
    decreases |fs|
  {
    if fs == [] then ""
    else
      var last := fs[|fs| - 1];
      JoinFields(fs[..|fs| - 1]) + (if last == "" then "" else " " + last)
  }

  /** A data value is empty or starts with a space; built from fields
      without spaces it never holds two spaces in a row and does not end
      with one. */
  lemma {:induction false} JoinFieldsShape(fs: seq<string>)
    requires forall k :: 0 <= k < |fs| ==> ' ' !in fs[k]
    ensures var v := JoinFields(fs);
      && (v == "" || v[0] == ' ')
      && (v == "" || v[|v| - 1] != ' ')
      && (forall k :: 0 <= k < |v| - 1 && v[k] == ' ' ==> v[k + 1] != ' ')
    decreases |fs|
  {
    if fs != [] {
      var init, last := fs[..|fs| - 1], fs[|fs| - 1];
      JoinFieldsShape(init);
      var w := JoinFields(init);
      if last != "" {
        var v := w + " " + last;
        assert ' ' !in last;
        assert v[|w|] == ' ';
        assert v[|v| - 1] == last[|last| - 1];
        forall k | 0 <= k < |v| - 1 && v[k] == ' ' ensures v[k + 1] != ' ' {
          if k < |w| - 1 {
            assert v[k] == w[k] && v[k + 1] == w[k + 1];
          } else if k >= |w| {
            assert v[k + 1] == last[k - |w|];
          }
        }
        if w != "" {
          assert v[0] == w[0];
        }
      }
    }
  }

  /** The key of a data line: its text up to the first space. */
  function DataKey(line: string): string {
    Split(line, ' ')[0]
  }

  /** The value of a data line. */
  function DataValue(line: string): string {
    JoinFields(Split(line, ' ')[1..])
  }

  /** Every value begins with a space, unless the line has nothing after its key. */
  lemma DataValueShape(line: string)
    ensures var v := DataValue(line);
      && (v == "" || (v[0] == ' ' && v[|v| - 1] != ' '))
      && (forall k :: 0 <= k < |v| - 1 && v[k] == ' ' ==> v[k + 1] != ' ')
  {
    var fs := Split(line, ' ')[1..];
    assert forall k :: 0 <= k < |fs| ==> fs[k] == Split(line, ' ')[k + 1];
    JoinFieldsShape(fs);
  }

  /** What getData makes of one line: nothing for a blank or comment
      line, otherwise its key and value. */
  function Entry(line: string): Option<(string, string)> {
    if TopSkip(line) then None else Some((DataKey(line), DataValue(line)))
  }

  /** The entries of a run of lines, line by line. */
  function Entries(lines: seq<string>): (es: seq<Option<(string, string)>>)
    ensures |es| == |lines|
    ensures forall k :: 0 <= k < |lines| ==> es[k] == Entry(lines[k])
  {
    seq(|lines|, k requires 0 <= k < |lines| => Entry(lines[k]))
  }

  /** The map filled from a run of entries; a later entry with the same
      key overwrites an earlier one. */
  function Fill(m: map<string, string>, es: seq<Option<(string, string)>>): map<string, string>
    decreases |es|
  {
    if es == [] then m
    else
      var m' := Fill(m, es[..|es| - 1]);
      match es[|es| - 1]
      case None => m'
      case Some((k, v)) => m'[k := v]
  }

  /** Reading one more entry updates the map with it, if it is one. */
  lemma FillNext(m: map<string, string>, es: seq<Option<(string, string)>>, n: nat)
    requires n < |es|
    ensures es[n].None? ==> Fill(m, es[..n + 1]) == Fill(m, es[..n])
    ensures es[n].Some? ==> Fill(m, es[..n + 1]) == Fill(m, es[..n])[es[n].value.0 := es[n].value.1]
  {
    assert es[..n + 1][..n] == es[..n];
  }

  /** getData: without a `data` header the map is left as it was;
      otherwise it is a fresh map of every line after the header. */
  function DataOf(prev: map<string, string>, lines: seq<string>): map<string, string> {
    var s := FindData(lines, 0);
    if s < 0 then prev else Fill(map[], Entries(lines[s + 1..]))
  }

  /** Entry `j` carries key `key`. */
  predicate KeyedAt(es: seq<Option<(string, string)>>, j: nat, key: string)
    requires j < |es|
  {
    es[j].Some? && es[j].value.0 == key
  }

  /** The keys of the map are exactly the keys of the entries read. */
  lemma {:induction false} FillKeys(m: map<string, string>, es: seq<Option<(string, string)>>, key: string)
    ensures key in Fill(m, es) <==> (key in m || exists j :: 0 <= j < |es| && KeyedAt(es, j, key))
    decreases |es|
  {
    if es != [] {
      var init := es[..|es| - 1];
      FillKeys(m, init, key);
      assert forall j :: 0 <= j < |init| ==> init[j] == es[j];
      if exists j :: 0 <= j < |es| && KeyedAt(es, j, key) {
        var j :| 0 <= j < |es| && KeyedAt(es, j, key);
        if j < |init| {
          assert KeyedAt(init, j, key);
        }
      }
      if exists j :: 0 <= j < |init| && KeyedAt(init, j, key) {
        var j :| 0 <= j < |init| && KeyedAt(init, j, key);
        assert KeyedAt(es, j, key);
      }
      if key in Fill(m, es) && key !in Fill(m, init) {
        assert KeyedAt(es, |es| - 1, key);
      }
    }
  }

  /** The last entry with a given key decides its value. */
  lemma {:induction false} FillLastWins(m: map<string, string>, es: seq<Option<(string, string)>>, j: nat)
    requires j < |es| && es[j].Some?
    requires forall k :: j < k < |es| ==> !KeyedAt(es, k, es[j].value.0)
    ensures es[j].value.0 in Fill(m, es)
    ensures Fill(m, es)[es[j].value.0] == es[j].value.1
    decreases |es|
  {
    var init := es[..|es| - 1];
    if j < |init| {
      assert init[j] == es[j];
      forall k | j < k < |init| ensures !KeyedAt(init, k, es[j].value.0) {
        assert init[k] == es[k];
        assert !KeyedAt(es, k, es[j].value.0);
      }
      FillLastWins(m, init, j);
      assert !KeyedAt(es, |es| - 1, es[j].value.0);
    }
  }

  /** A data line yields an entry exactly when it is neither blank nor a
      comment, and the entry's key is the line's text up to its first
      space. */
  lemma EntryShape(line: string)
    ensures Entry(line).Some? <==> !TopSkip(line)
    ensures Entry(line).Some? ==>
      && HasPrefix(line, Entry(line).value.0)
      && ' ' !in Entry(line).value.0
  {
  }

  // ---------------------------------------------------------------------
  // The blocked-ip file

  /** The first space-separated token of every line that is neither blank
      nor a `#` comment once trimmed, in order. */
  function BlockedList(lines: seq<string>): (r: seq<string>)
    ensures |r| <= |lines|
    ensures forall k :: 0 <= k < |r| ==> r[k] != "" && ' ' !in r[k] && r[k][0] != '#'
    decreases |lines|
  {
    if lines == [] then []
    else
      var last := lines[|lines| - 1];
      var l := Trim(last);
      var init := BlockedList(lines[..|lines| - 1]);
      if HasPrefix(l, "#") || l == "" then init
      else
        var ip := Split(l, ' ')[0];
        assert ip != "";
        assert ip[0] == l[0];
        init + [ip]
  }

  /** The blocked addresses of the blocked-ip file's text. */
  function BlockedIPs(text: string): seq<string> {
    BlockedList(Split(text, '\n'))
  }
}
