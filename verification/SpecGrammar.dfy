/**
 * harness/engines.py and evals/run.py: candidate specs, `kind:name,key=value,...`, the list of them a command takes,
 * and the suffix that tells two variants of one engine apart.
 */
module SpecGrammar {
  import opened Common
  import opened Text

  // ---- a list of candidates ----

  /** One chunk: dropped if blank, joined to the candidate before it if it holds '=', else a candidate. */
  function Take(out: seq<string>, chunk: string): seq<string> {
    var c := Strip(chunk);
    if c == "" then out
    else if '=' in c && out != [] then out[|out| - 1 := out[|out| - 1] + [','] + c]
    else out + [c]
  }

  function TakeAll(out: seq<string>, chunks: seq<string>): seq<string>
    decreases chunks
  {
    if chunks == [] then out else TakeAll(Take(out, chunks[0]), chunks[1..])
  }

  /** Split a candidate list on commas, keeping engine options attached. */
  method SplitCandidates(raw: string) returns (out: seq<string>)
    ensures out == TakeAll([], Split(raw, ','))
  {
    out := [];
    var chunks := Split(raw, ',');
    var i := 0;
    while i < |chunks|
      invariant 0 <= i <= |chunks|
      invariant TakeAll(out, chunks[i..]) == TakeAll([], chunks)
    {
      assert chunks[i..][0] == chunks[i] && chunks[i..][1..] == chunks[i + 1..];
      var chunk := Strip(chunks[i]);
      if chunk != "" {
        if '=' in chunk && out != [] {
          out := out[|out| - 1 := out[|out| - 1] + [','] + chunk];
        } else {
          out := out + [chunk];
        }
      }
      i := i + 1;
    }
  }

  predicate IsChunk(p: string) { p != "" && Stripped(p) }

  /** Options follow a name: every part is trimmed and not blank, and every part but the first holds '='. */
  predicate IsSpec(s: string) {
    var parts := Split(s, ',');
    && (forall p <- parts :: IsChunk(p))
    && (forall i :: 1 <= i < |parts| ==> '=' in parts[i])
  }

  /** A list of specs none of which but the first could be read as options of the one before. */
  predicate WellFormed(specs: seq<string>) {
    && (forall s <- specs :: IsSpec(s))
    && (forall i :: 1 <= i < |specs| ==> '=' !in Split(specs[i], ',')[0])
  }

  lemma TakeName(out: seq<string>, c: string)
    requires IsChunk(c) && (out == [] || '=' !in c)
    ensures Take(out, c) == out + [c]
  {
    StripOfStripped(c);
  }

  lemma TakeOption(out: seq<string>, cur: string, o: string)
    requires IsChunk(o) && '=' in o
    ensures Take(out + [cur], o) == out + [cur + [','] + o]
  {
    StripOfStripped(o);
    assert (out + [cur])[|out| := cur + [','] + o] == out + [cur + [','] + o];
  }

  lemma TakeNext(out: seq<string>, chunks: seq<string>, rest: seq<string>)
    requires chunks != []
    ensures TakeAll(out, chunks + rest) == TakeAll(Take(out, chunks[0]), chunks[1..] + rest)
  {
    hide Take;
    assert (chunks + rest)[1..] == chunks[1..] + rest;
  }

  function Tail(rest: seq<string>): string { if rest == [] then "" else [','] + Join(rest, ',') }

  lemma JoinCons(first: string, rest: seq<string>)
    ensures Join([first] + rest, ',') == first + Tail(rest)
  {
    assert ([first] + rest)[1..] == rest;
    if rest == [] {
      assert [first] + rest == [first];
    } else {
      assert first + [','] + Join(rest, ',') == first + Tail(rest);
    }
  }

  lemma TailIs(options: seq<string>)
    requires options != []
    ensures Tail(options) == [','] + (options[0] + Tail(options[1..]))
  {
    JoinCons(options[0], options[1..]);
    assert [options[0]] + options[1..] == options;
  }

  lemma JoinFirst(cur: string, options: seq<string>)
    requires options != []
    ensures Join([cur] + options, ',') == Join([cur + [','] + options[0]] + options[1..], ',')
  {
    hide *;
    JoinCons(cur, options);
    TailIs(options);
    JoinCons(cur + [','] + options[0], options[1..]);
    assert cur + ([','] + (options[0] + Tail(options[1..]))) == cur + [','] + options[0] + Tail(options[1..]);
  }

  lemma NoOptions(cur: string, rest: seq<string>)
    ensures Join([cur] + [], ',') == cur && [] + rest == rest
  {
    assert [cur] + [] == [cur];
  }

  lemma {:induction false} TakeOptions(out: seq<string>, cur: string, options: seq<string>, rest: seq<string>)
    requires forall o <- options :: IsChunk(o) && '=' in o
    ensures TakeAll(out + [cur], options + rest) == TakeAll(out + [Join([cur] + options, ',')], rest)
    decreases options
  {
    hide *;
    if options == [] {
      NoOptions(cur, rest);
    } else {
      assert options[0] in options && forall o <- options[1..] :: o in options;
      TakeNext(out + [cur], options, rest);
      TakeOption(out, cur, options[0]);
      JoinFirst(cur, options);
      TakeOptions(out, cur + [','] + options[0], options[1..], rest);
    }
  }

  /** What IsSpec says, for the parts of a spec. */
  lemma SpecParts(spec: string)
    requires IsSpec(spec)
    ensures var parts := Split(spec, ',');
            IsChunk(parts[0]) && (forall o <- parts[1..] :: IsChunk(o) && '=' in o)
            && Join([parts[0]] + parts[1..], ',') == spec
  {
    var parts := Split(spec, ',');
    assert parts[0] in parts && forall o <- parts[1..] :: o in parts;
    assert [parts[0]] + parts[1..] == parts;
    JoinOfSplit(spec, ',');
  }

  lemma TakeSpec(out: seq<string>, spec: string, rest: seq<string>)
    requires IsSpec(spec) && (out == [] || '=' !in Split(spec, ',')[0])
    ensures TakeAll(out, Split(spec, ',') + rest) == TakeAll(out + [spec], rest)
  {
    hide *;
    var parts := Split(spec, ',');
    SpecParts(spec);
    TakeNext(out, parts, rest);
    TakeName(out, parts[0]);
    TakeOptions(out, parts[0], parts[1..], rest);
  }

  lemma SplitOfSpecs(specs: seq<string>)
    requires |specs| > 1
    ensures Split(Join(specs, ','), ',') == Split(specs[0], ',') + Split(Join(specs[1..], ','), ',')
  {
    SplitConcat(specs[0], Join(specs[1..], ','), ',');
    hide Split;
  }

  lemma WellFormedParts(specs: seq<string>)
    requires WellFormed(specs) && specs != []
    ensures IsSpec(specs[0]) && WellFormed(specs[1..])
    ensures |specs| > 1 ==> '=' !in Split(specs[1], ',')[0]
  {
    hide IsSpec, Split;
    assert specs[0] in specs && forall s <- specs[1..] :: s in specs;
    assert forall i :: 1 <= i < |specs[1..]| ==> specs[1..][i] == specs[i + 1];
  }

  lemma OneSpec(specs: seq<string>)
    requires |specs| == 1
    ensures Join(specs, ',') == specs[0]
  {
  }

  lemma NoChunks(out: seq<string>)
    ensures TakeAll(out, []) == out
  {
  }

  lemma {:induction false} SpecsAreTaken(out: seq<string>, specs: seq<string>)
    requires specs != [] && WellFormed(specs) && (out == [] || '=' !in Split(specs[0], ',')[0])
    ensures TakeAll(out, Split(Join(specs, ','), ',')) == out + specs
    decreases specs
  {
    hide *;
    WellFormedParts(specs);
    if |specs| == 1 {
      OneSpec(specs);
      assert Split(specs[0], ',') + [] == Split(specs[0], ',');
      TakeSpec(out, specs[0], []);
      NoChunks(out + [specs[0]]);
    } else {
      SplitOfSpecs(specs);
      TakeSpec(out, specs[0], Split(Join(specs[1..], ','), ','));
      assert specs[1..][0] == specs[1];
      SpecsAreTaken(out + [specs[0]], specs[1..]);
      assert out + [specs[0]] + specs[1..] == out + specs;
    }
  }

  lemma {:induction false} StripKeepsOut(s: string, c: char)
    requires c !in s
    ensures c !in Strip(s)
  {
    StripLeftKeepsOut(s, c);
    var l := StripLeft(s);
    assert StripRight(l) <= l;
  }

  lemma {:induction false} StripLeftKeepsOut(s: string, c: char)
    requires c !in s
    ensures c !in StripLeft(s)
  {
    if s != "" {
      StripLeftKeepsOut(s[1..], c);
    }
  }

  lemma NameIsSpec(c: string)
    requires IsChunk(c) && ',' !in c
    ensures IsSpec(c) && Split(c, ',') == [c]
  {
    SplitUncut(c, ',');
    hide Split, IsChunk;
  }

  lemma SpecGrows(s: string, c: string)
    requires IsSpec(s) && IsChunk(c) && ',' !in c && '=' in c
    ensures IsSpec(s + [','] + c) && Split(s + [','] + c, ',')[0] == Split(s, ',')[0]
  {
    SplitConcat(s, c, ',');
    SplitUncut(c, ',');
    hide Split, IsChunk;
  }

  /** Whatever the chunk, a well formed list stays one. */
  lemma TakeIsWellFormed(out: seq<string>, chunk: string)
    requires WellFormed(out) && ',' !in chunk
    ensures WellFormed(Take(out, chunk))
  {
    var c := Strip(chunk);
    StripIsStripped(chunk);
    StripKeepsOut(chunk, ',');
    var next := Take(out, chunk);
    hide IsSpec, Split, Strip, Stripped;
    if c != "" {
      if '=' in c && out != [] {
        var last := |out| - 1;
        assert out[last] in out;
        SpecGrows(out[last], c);
        assert next == out[..last] + [out[last] + [','] + c];
      } else {
        NameIsSpec(c);
      }
    }
  }

  lemma {:induction false} TakeAllIsWellFormed(out: seq<string>, chunks: seq<string>)
    requires WellFormed(out) && forall c <- chunks :: ',' !in c
    ensures WellFormed(TakeAll(out, chunks))
    decreases chunks
  {
    if chunks != [] {
      assert chunks[0] in chunks && forall c <- chunks[1..] :: c in chunks;
      TakeIsWellFormed(out, chunks[0]);
      TakeAllIsWellFormed(Take(out, chunks[0]), chunks[1..]);
    }
  }

  /** Splitting a comma-joined list gives the list back exactly when the list is well formed. */
  lemma SplitRecoversExactlyWellFormed(specs: seq<string>)
    ensures TakeAll([], Split(Join(specs, ','), ',')) == specs <==> WellFormed(specs)
  {
    TakeAllIsWellFormed([], Split(Join(specs, ','), ','));
    if WellFormed(specs) && specs != [] {
      SpecsAreTaken([], specs);
      assert [] + specs == specs;
    } else if specs == [] {
      assert Split("", ',') == [""];
      assert Take([], "") == [];
      assert TakeAll([], [""]) == TakeAll([], []);
    }
  }

  /** Any input at all is read as a well formed list, which reads as itself. */
  lemma SplittingTwiceIsOnce(raw: string)
    ensures var specs := TakeAll([], Split(raw, ','));
            WellFormed(specs) && TakeAll([], Split(Join(specs, ','), ',')) == specs
  {
    TakeAllIsWellFormed([], Split(raw, ','));
    SplitRecoversExactlyWellFormed(TakeAll([], Split(raw, ',')));
  }

  // ---- options ----

  type Options = map<string, string>

  /** The options the chunks spell, or the first chunk that is not key=value; a later key replaces an earlier one. */
  function OptionsOf(chunks: seq<string>): Result<Options, string> {
    if chunks == [] then Ok(map[])
    else
      var before := OptionsOf(chunks[..|chunks| - 1]);
      var c := Strip(chunks[|chunks| - 1]);
      if before.Err? || c == "" then before
      else if '=' !in c then Err(c)
      else Ok(before.value[Strip(Before(c, '=')) := Strip(After(c, '='))])
  }

  lemma OptionStep(chunks: seq<string>, i: nat, out: Options)
    requires i < |chunks| && OptionsOf(chunks[..i]) == Ok(out)
    ensures var c := Strip(chunks[i]);
            OptionsOf(chunks[..i + 1]) == if c == "" then Ok(out) else if '=' !in c then Err(c)
                                          else Ok(out[Strip(Before(c, '=')) := Strip(After(c, '='))])
  {
    hide Strip, Before, After;
    assert chunks[..i + 1][..i] == chunks[..i];
  }

  lemma NoneParsed(chunks: seq<string>)
    ensures OptionsOf(chunks[..0]) == Ok(map[])
  {
  }

  method ParseOptions(optstr: string) returns (r: Result<Options, string>)
    ensures r == OptionsOf(Split(optstr, ','))
  {
    var chunks := Split(optstr, ',');
    var out: Options := map[];
    var i := 0;
    hide *;
    NoneParsed(chunks);
    while i < |chunks|
      invariant 0 <= i <= |chunks|
      invariant OptionsOf(chunks[..i]) == Ok(out)
    {
      OptionStep(chunks, i, out);
      var chunk := Strip(chunks[i]);
      if chunk != "" {
        if '=' !in chunk {
          ErrorsStay(chunks, i + 1);
          return Err(chunk);
        }
        out := out[Strip(Before(chunk, '=')) := Strip(After(chunk, '='))];
      }
      i := i + 1;
    }
    assert chunks[..i] == chunks;
    r := Ok(out);
  }

  lemma {:induction false} ErrorsStay(chunks: seq<string>, i: nat)
    requires i <= |chunks| && OptionsOf(chunks[..i]).Err?
    ensures OptionsOf(chunks) == OptionsOf(chunks[..i])
    decreases |chunks|
  {
    hide Strip, Before, After;
    if i < |chunks| {
      var n := |chunks| - 1;
      assert chunks[..n][..i] == chunks[..i];
      ErrorsStay(chunks[..n], i);
    } else {
      assert chunks[..i] == chunks;
    }
  }

  predicate CleanKey(k: string) { Stripped(k) && ',' !in k && '=' !in k }

  predicate CleanValue(v: string) { Stripped(v) && ',' !in v }

  predicate Clean(options: Options) {
    forall k <- options :: CleanKey(k) && CleanValue(options[k])
  }

  lemma BeforeKeepsOut(s: string, c: char, d: char)
    requires d !in s
    ensures d !in Before(s, c)
  {
    assert Before(s, c) <= s;
  }

  lemma AfterKeepsOut(s: string, c: char, d: char)
    requires d !in s
    ensures d !in After(s, c)
  {
    if c in s {
      assert s == Before(s, c) + [c] + After(s, c);
      hide Before, After;
    }
  }

  lemma OptionIsClean(c: string)
    requires ',' !in c
    ensures CleanKey(Strip(Before(c, '='))) && CleanValue(Strip(After(c, '=')))
  {
    var (k, v) := (Before(c, '='), After(c, '='));
    BeforeKeepsOut(c, '=', ',');
    AfterKeepsOut(c, '=', ',');
    hide Before, After, Strip, Stripped;
    StripKeepsOut(k, ',');
    StripKeepsOut(k, '=');
    StripKeepsOut(v, ',');
    StripIsStripped(k);
    StripIsStripped(v);
  }

  lemma AddedIsClean(options: Options, k: string, v: string)
    requires Clean(options) && CleanKey(k) && CleanValue(v)
    ensures Clean(options[k := v])
  {
    hide CleanKey, CleanValue;
  }

  lemma NothingIsClean()
    ensures OptionsOf([]) == Ok(map[]) && Clean(map[])
  {
  }

  /** What parsing yields is trimmed, and holds no comma and no '=' in a key. */
  lemma {:induction false} ParsedAreClean(chunks: seq<string>)
    requires forall c <- chunks :: ',' !in c
    ensures OptionsOf(chunks).Ok? ==> Clean(OptionsOf(chunks).value)
  {
    hide *;
    if chunks == [] {
      NothingIsClean();
    } else {
      var n := |chunks| - 1;
      assert chunks[n] in chunks && forall c <- chunks[..n] :: c in chunks;
      ParsedAreClean(chunks[..n]);
      StripKeepsOut(chunks[n], ',');
      LastIsClean(chunks);
    }
  }

  lemma LastIsClean(chunks: seq<string>)
    requires chunks != [] && ',' !in Strip(chunks[|chunks| - 1])
    requires var before := OptionsOf(chunks[..|chunks| - 1]); before.Ok? ==> Clean(before.value)
    ensures OptionsOf(chunks).Ok? ==> Clean(OptionsOf(chunks).value)
  {
    var c := Strip(chunks[|chunks| - 1]);
    hide Strip, Before, After, Clean, CleanKey, CleanValue;
    var before := OptionsOf(chunks[..|chunks| - 1]);
    OptionIsClean(c);
    if before.Ok? {
      AddedIsClean(before.value, Strip(Before(c, '=')), Strip(After(c, '=')));
    }
  }

  // ---- the identity suffix ----

  const ENVIRONMENTAL := {"root", "lm"}

  /** The options a label must tell apart: not where things are, not what the label says already, not empty. */
  function Kept(options: Options, already: set<string>): Options {
    map k | k in options && k !in ENVIRONMENTAL && k !in already && options[k] != "" :: options[k]
  }

  function Printed(options: Options, keys: seq<string>): (chunks: seq<string>)
    requires forall k <- keys :: k in options
    ensures |chunks| == |keys| && forall i :: 0 <= i < |keys| ==> chunks[i] == keys[i] + "=" + options[keys[i]]
  {
    if keys == [] then [] else [keys[0] + "=" + options[keys[0]]] + Printed(options, keys[1..])
  }

  /** The suffix that keeps two option-variants of one engine apart, or "". */
  function Distinguish(options: Options, already: set<string>): string {
    var keep := Kept(options, already);
    if keep == map[] then "" else "@" + Join(Printed(keep, SortedNames(keep.Keys)), ',')
  }

  lemma ChunkParses(k: string, v: string)
    requires CleanKey(k) && CleanValue(v) && v != ""
    ensures var c := k + "=" + v;
            ',' !in c && c != "" && Strip(c) == c && '=' in c
            && Strip(Before(c, '=')) == k && Strip(After(c, '=')) == v
  {
    var c := k + "=" + v;
    assert c[|k|] == '=';
    assert c[|c| - 1] == v[|v| - 1];
    assert Stripped(c);
    StripOfStripped(c);
    StripOfStripped(k);
    StripOfStripped(v);
    assert c == k + ['='] + v;
    CutAt(k, v, '=');
  }

  lemma OneMoreOption(chunks: seq<string>, k: string, v: string)
    requires chunks != [] && chunks[|chunks| - 1] == k + "=" + v && OptionsOf(chunks[..|chunks| - 1]).Ok?
    requires CleanKey(k) && CleanValue(v) && v != ""
    ensures OptionsOf(chunks) == Ok(OptionsOf(chunks[..|chunks| - 1]).value[k := v])
  {
    ChunkParses(k, v);
    hide Before, After, Strip, Stripped, CleanKey, CleanValue;
  }

  /** The options a list of keys names. */
  function Named(options: Options, keys: seq<string>): Options {
    map k | k in options && k in keys :: options[k]
  }

  lemma OneMoreKey(options: Options, keys: seq<string>)
    requires keys != [] && keys[|keys| - 1] in options
    ensures var (n, k) := (|keys| - 1, keys[|keys| - 1]);
            Named(options, keys[..n])[k := options[k]] == Named(options, keys)
  {
    assert keys == keys[..|keys| - 1] + [keys[|keys| - 1]];
  }

  lemma {:induction false} PrintedLast(options: Options, keys: seq<string>)
    requires keys != [] && forall k <- keys :: k in options
    ensures var (n, chunks) := (|keys| - 1, Printed(options, keys));
            chunks[..n] == Printed(options, keys[..n]) && chunks[n] == keys[n] + "=" + options[keys[n]]
  {
    hide Printed;
  }

  lemma NothingNamed(options: Options)
    ensures Named(options, []) == map[] && OptionsOf([]) == Ok(map[])
  {
  }

  /** Clean options, printed in any order, parse as themselves. */
  lemma {:induction false} PrintedParses(options: Options, keys: seq<string>)
    requires Clean(options) && forall k <- options :: options[k] != ""
    requires forall k <- keys :: k in options
    ensures OptionsOf(Printed(options, keys)) == Ok(Named(options, keys))
  {
    if keys == [] {
      NothingNamed(options);
      hide OptionsOf, Named, Clean;
    } else {
      var n := |keys| - 1;
      var (k, v) := (keys[n], options[keys[n]]);
      assert CleanKey(k) && CleanValue(v) && v != "";
      hide *;
      PrintedLast(options, keys);
      PrintedParses(options, keys[..n]);
      OneMoreKey(options, keys);
      OneMoreOption(Printed(options, keys), k, v);
    }
  }

  lemma PrintedHasNoCommas(options: Options, keys: seq<string>)
    requires Clean(options) && (forall k <- options :: options[k] != "") && forall k <- keys :: k in options
    ensures forall c <- Printed(options, keys) :: ',' !in c
  {
    forall c <- Printed(options, keys)
      ensures ',' !in c
    {
      var i :| 0 <= i < |keys| && Printed(options, keys)[i] == c;
      ChunkParses(keys[i], options[keys[i]]);
    }
  }

  lemma SomeKey(options: Options, keys: seq<string>)
    requires options != map[] && forall k :: k in keys <==> k in options
    ensures keys != []
  {
    var k := Pick(options.Keys);
    assert k in keys;
  }

  /** Options printed in any order parse back as the same options. */
  lemma PrintingRoundTrips(options: Options, keys: seq<string>)
    requires Clean(options) && options != map[] && forall k <- options :: options[k] != ""
    requires forall k :: k in keys <==> k in options
    ensures OptionsOf(Split(Join(Printed(options, keys), ','), ',')) == Ok(options)
  {
    PrintedHasNoCommas(options, keys);
    assert Named(options, keys) == options;
    SomeKey(options, keys);
    hide OptionsOf, Printed, Named, Split, Join, Clean;
    SplitOfJoin(Printed(options, keys), ',');
    PrintedParses(options, keys);
  }

  /** Parsing the suffix gives back the options less the environmental, the named and the empty ones. */
  lemma SuffixRoundTrips(options: Options, already: set<string>)
    requires Clean(options)
    ensures var suffix := Distinguish(options, already);
            if Kept(options, already) == map[] then suffix == ""
            else suffix != "" && suffix[0] == '@'
                 && OptionsOf(Split(suffix[1..], ',')) == Ok(Kept(options, already))
  {
    var keep := Kept(options, already);
    if keep != map[] {
      var keys := SortedNames(keep.Keys);
      assert Clean(keep) && forall k <- keep :: keep[k] != "";
      PrintingRoundTrips(keep, keys);
      var suffix := Distinguish(options, already);
      assert suffix[1..] == Join(Printed(keep, keys), ',');
    }
  }

  /** Two parsed option lists get one suffix exactly when they agree on what is kept, however each was written. */
  lemma SuffixIsIdentity(a: string, b: string, already: set<string>)
    requires OptionsOf(Split(a, ',')).Ok? && OptionsOf(Split(b, ',')).Ok?
    ensures var (x, y) := (OptionsOf(Split(a, ',')).value, OptionsOf(Split(b, ',')).value);
            Distinguish(x, already) == Distinguish(y, already) <==> Kept(x, already) == Kept(y, already)
  {
    var (x, y) := (OptionsOf(Split(a, ',')).value, OptionsOf(Split(b, ',')).value);
    ParsedAreClean(Split(a, ','));
    ParsedAreClean(Split(b, ','));
    SuffixRoundTrips(x, already);
    SuffixRoundTrips(y, already);
    hide OptionsOf, Kept, Clean;
  }

  /** An option that counts: given, not empty, not where the files or the language model are, and not said already. */
  predicate Counts(options: Options, already: set<string>, k: string) {
    k in options && options[k] != "" && k != "root" && k != "lm" && k !in already
  }

  lemma KeptCount(options: Options, already: set<string>)
    ensures forall k :: k in Kept(options, already) <==> Counts(options, already, k)
    ensures forall k <- Kept(options, already) :: Kept(options, already)[k] == options[k]
  {
  }

  /** So two option lists get different suffixes exactly when some option that counts tells them apart. */
  lemma SuffixTellsApartExactly(a: string, b: string, already: set<string>)
    requires OptionsOf(Split(a, ',')).Ok? && OptionsOf(Split(b, ',')).Ok?
    ensures var (x, y) := (OptionsOf(Split(a, ',')).value, OptionsOf(Split(b, ',')).value);
            Distinguish(x, already) != Distinguish(y, already) <==>
              exists k :: Counts(x, already, k) != Counts(y, already, k) || (Counts(x, already, k) && x[k] != y[k])
  {
    var (x, y) := (OptionsOf(Split(a, ',')).value, OptionsOf(Split(b, ',')).value);
    SuffixIsIdentity(a, b, already);
    KeptCount(x, already);
    KeptCount(y, already);
    hide OptionsOf, Distinguish, Kept, Counts;
    var (p, q) := (Kept(x, already), Kept(y, already));
    if p != q {
      if p.Keys == q.Keys {
        var k :| k in p && p[k] != q[k];
        assert Counts(x, already, k);
      } else if k :| k in p && k !in q {
        assert Counts(x, already, k) != Counts(y, already, k);
      } else {
        var k :| k in q && k !in p;
        assert Counts(x, already, k) != Counts(y, already, k);
      }
    }
  }
}
