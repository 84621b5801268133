/** evals/core.py and evals/run.py: which runs may be ranked in one table, and why the first run may judge the rest. */
module Receipts {
  import opened Common
  import opened Text

  type Told = map<string, string>

  /** The axes of a receipt. An empty string is what a run from before the axis existed says. */
  datatype Receipt = Receipt(
    tier: string, modality: string, caseIds: seq<string>, digest: string, split: string, splitVersion: string,
    repeat: int, ladder: seq<int>, maxTokens: int, knobs: Told, sampling: Told, adherence: string,
    accelerator: string, place: string, devices: Told, launch: Told, instruments: Told, swaps: map<string, nat>)

  datatype Axis = Swapped | Tier | Modality | CaseIds | Digest | Split | Repeat | BudgetLadder | MaxTokens | Knobs
                | Sampling | Adherence | Accelerator | Place | Device(key: string) | Launch(key: string)
                | Instrument(name: string)

  /** The router evicted a model mid-run. */
  predicate Contaminated(r: Receipt) { exists k <- r.swaps :: r.swaps[k] > 0 }

  /** An axis compared only where both runs say. */
  predicate Clash(a: string, b: string) { a != "" && b != "" && a != b }

  function Differing(a: Told, b: Told): set<string> { set k | k in a && k in b && a[k] != b[k] }

  function Clashing(a: Told, b: Told): set<string> { set k | k in a && k in b && Clash(a[k], b[k]) }

  /** Why two runs may not be ranked in one table; None when they are one exam. */
  function Refusal(a: Receipt, b: Receipt): Option<Axis> {
    if Contaminated(a) || Contaminated(b) then Some(Swapped)
    else if a.tier != b.tier then Some(Tier)
    else if a.modality != b.modality then Some(Modality)
    else if a.caseIds != b.caseIds then Some(CaseIds)
    else if Clash(a.digest, b.digest) then Some(Digest)
    else if a.split != "" && b.split != "" && (a.split, a.splitVersion) != (b.split, b.splitVersion) then Some(Split)
    else if a.repeat != b.repeat then Some(Repeat)
    else if a.ladder != b.ladder then Some(BudgetLadder)
    else if a.maxTokens != b.maxTokens then Some(MaxTokens)
    else if a.knobs != b.knobs then Some(Knobs)
    else if a.sampling != b.sampling then Some(Sampling)
    else if a.adherence != b.adherence then Some(Adherence)
    else if Clash(a.accelerator, b.accelerator) then Some(Accelerator)
    else if Clash(a.place, b.place) then Some(Place)
    else if Differing(a.devices, b.devices) != {} then Some(Device(First(Differing(a.devices, b.devices))))
    else if Differing(a.launch, b.launch) != {} then Some(Launch(First(Differing(a.launch, b.launch))))
    else if Clashing(a.instruments, b.instruments) != {} then
      Some(Instrument(First(Clashing(a.instruments, b.instruments))))
    else None
  }

  predicate Comparable(a: Receipt, b: Receipt) { Refusal(a, b) == None }

  /** Neither run is first: the verdict and the axis it names are the same both ways. */
  lemma RefusalIsSymmetric(a: Receipt, b: Receipt)
    ensures Refusal(a, b) == Refusal(b, a)
  {
    assert Differing(a.devices, b.devices) == Differing(b.devices, a.devices);
    assert Differing(a.launch, b.launch) == Differing(b.launch, a.launch);
    assert Clashing(a.instruments, b.instruments) == Clashing(b.instruments, a.instruments);
    hide Differing, Clashing, Contaminated;
  }

  /** A run is comparable with itself exactly when no router swap spoiled it. */
  lemma ComparableWithItself(r: Receipt)
    ensures Comparable(r, r) <==> !Contaminated(r)
    ensures Comparable(r, r) <==> forall k <- r.swaps :: r.swaps[k] == 0
  {
    assert Differing(r.devices, r.devices) == {} && Differing(r.launch, r.launch) == {};
    assert Clashing(r.instruments, r.instruments) == {};
    hide Differing, Clashing;
  }

  // ---- the axes, read without their order ----

  /** The axes every run records. */
  predicate SameExam(a: Receipt, b: Receipt) {
    && a.tier == b.tier && a.modality == b.modality && a.caseIds == b.caseIds && a.repeat == b.repeat
    && a.ladder == b.ladder && a.maxTokens == b.maxTokens && a.knobs == b.knobs && a.sampling == b.sampling
    && a.adherence == b.adherence
  }

  predicate NoClash(a: Receipt, b: Receipt) {
    && !Clash(a.digest, b.digest) && !Clash(a.accelerator, b.accelerator) && !Clash(a.place, b.place)
    && (a.split != "" && b.split != "" ==> a.split == b.split && a.splitVersion == b.splitVersion)
  }

  predicate SharedAgree(a: Receipt, b: Receipt) {
    && (forall k <- a.devices :: k in b.devices ==> a.devices[k] == b.devices[k])
    && (forall k <- a.launch :: k in b.launch ==> a.launch[k] == b.launch[k])
    && (forall k <- a.instruments :: k in b.instruments ==> !Clash(a.instruments[k], b.instruments[k]))
  }

  lemma ComparableIs(a: Receipt, b: Receipt)
    ensures Comparable(a, b) <==>
              !Contaminated(a) && !Contaminated(b) && SameExam(a, b) && NoClash(a, b) && SharedAgree(a, b)
  {
    NoneDiffer(a.devices, b.devices);
    NoneDiffer(a.launch, b.launch);
    NoneClash(a.instruments, b.instruments);
    hide Differing, Clashing, Contaminated, Clash;
  }

  lemma NoneDiffer(a: Told, b: Told)
    ensures Differing(a, b) == {} <==> forall k <- a :: k in b ==> a[k] == b[k]
  {
    if Differing(a, b) != {} {
      var k := Pick(Differing(a, b));
      assert k in a && k in b && a[k] != b[k];
    } else {
      forall k <- a | k in b
        ensures a[k] == b[k]
      {
        assert k !in Differing(a, b);
      }
    }
  }

  lemma NoneClash(a: Told, b: Told)
    ensures Clashing(a, b) == {} <==> forall k <- a :: k in b ==> !Clash(a[k], b[k])
  {
    if Clashing(a, b) != {} {
      var k := Pick(Clashing(a, b));
      assert k in a && k in b && Clash(a[k], b[k]);
    } else {
      forall k <- a | k in b
        ensures !Clash(a[k], b[k])
      {
        assert k !in Clashing(a, b);
      }
    }
  }

  // ---- one run judges the others ----

  /** The device, launch and instrument keys a set of runs may name. */
  datatype Keys = Keys(devices: set<string>, launch: set<string>, instruments: set<string>)

  predicate Uses(r: Receipt, keys: Keys) {
    r.devices.Keys <= keys.devices && r.launch.Keys <= keys.launch && r.instruments.Keys <= keys.instruments
  }

  /** It records every optional axis and every one of those keys, and names each instrument. */
  predicate RecordsAll(r: Receipt, keys: Keys) {
    && r.digest != "" && r.split != "" && r.accelerator != "" && r.place != ""
    && keys.devices <= r.devices.Keys && keys.launch <= r.launch.Keys
    && (forall k <- keys.instruments :: k in r.instruments && r.instruments[k] != "")
  }

  /** Any two runs it accepts are comparable with each other. */
  ghost predicate Judges(r: Receipt, keys: Keys) {
    forall a, b :: Uses(a, keys) && Uses(b, keys) && Comparable(r, a) && Comparable(r, b) ==> Comparable(a, b)
  }

  lemma AcceptedAgree(r: Receipt, keys: Keys, a: Receipt, b: Receipt)
    requires RecordsAll(r, keys) && Uses(a, keys) && Uses(b, keys) && Comparable(r, a) && Comparable(r, b)
    ensures Comparable(a, b)
  {
    ComparableIs(r, a);
    ComparableIs(r, b);
    ComparableIs(a, b);
    hide Refusal, Contaminated;
  }

  /** `r` naming other keys. */
  function Naming(r: Receipt, devices: Told, launch: Told, instruments: Told): Receipt {
    r.(devices := devices, launch := launch, instruments := instruments)
  }

  /** Keys the run does not record, or leaves blank, cannot clash with it. */
  lemma NamingIsAccepted(r: Receipt, devices: Told, launch: Told, instruments: Told)
    requires !Contaminated(r)
    requires (forall k <- devices :: k !in r.devices) && (forall k <- launch :: k !in r.launch)
    requires forall k <- instruments :: k !in r.instruments || r.instruments[k] == ""
    ensures Comparable(r, Naming(r, devices, launch, instruments))
  {
    ComparableIs(r, Naming(r, devices, launch, instruments));
    hide Refusal;
  }

  lemma NamingApart(a: Receipt, b: Receipt, k: string)
    requires || (k in a.devices && k in b.devices && a.devices[k] != b.devices[k])
             || (k in a.launch && k in b.launch && a.launch[k] != b.launch[k])
             || (k in a.instruments && k in b.instruments && Clash(a.instruments[k], b.instruments[k]))
    ensures !Comparable(a, b)
  {
    ComparableIs(a, b);
    hide Refusal, SameExam, NoClash, Contaminated;
  }

  /** `r` saying the four optional axes otherwise, and no key. */
  function Saying(r: Receipt, digest: string, split: string, accelerator: string, place: string): Receipt {
    Naming(r, map[], map[], map[]).(digest := digest, split := split, accelerator := accelerator, place := place)
  }

  lemma SayingIsAccepted(r: Receipt, digest: string, split: string, accelerator: string, place: string)
    requires !Contaminated(r) && !Clash(r.digest, digest) && (r.split == "" || r.split == split)
    requires !Clash(r.accelerator, accelerator) && !Clash(r.place, place)
    ensures Comparable(r, Saying(r, digest, split, accelerator, place))
  {
    ComparableIs(r, Saying(r, digest, split, accelerator, place));
    hide Refusal, Clash;
  }

  lemma SayingApart(a: Receipt, b: Receipt)
    requires !NoClash(a, b)
    ensures !Comparable(a, b)
  {
    ComparableIs(a, b);
    hide Refusal, SameExam, NoClash, Contaminated, SharedAgree;
  }

  /** What a judge that leaves an axis unsaid lets through: two runs it accepts that are not comparable. */
  lemma UnsaidAxis(r: Receipt, keys: Keys) returns (a: Receipt, b: Receipt)
    requires !Contaminated(r) && (r.digest == "" || r.split == "" || r.accelerator == "" || r.place == "")
    ensures Uses(a, keys) && Uses(b, keys) && Comparable(r, a) && Comparable(r, b) && !Comparable(a, b)
  {
    hide Refusal, Contaminated, SharedAgree, SameExam;
    var (d, s, f, p) := (r.digest, r.split, r.accelerator, r.place);
    if d == "" {
      a, b := SayTwoWays(r, ("1", s, f, p), ("2", s, f, p));
    } else if s == "" {
      a, b := SayTwoWays(r, (d, "dev", f, p), (d, "holdout", f, p));
    } else if f == "" {
      a, b := SayTwoWays(r, (d, s, "1", p), (d, s, "2", p));
    } else {
      a, b := SayTwoWays(r, (d, s, f, "1"), (d, s, f, "2"));
    }
  }

  type Said = (string, string, string, string)

  lemma SayTwoWays(r: Receipt, one: Said, two: Said) returns (a: Receipt, b: Receipt)
    requires !Contaminated(r)
    requires !Clash(r.digest, one.0) && (r.split == "" || r.split == one.1)
    requires !Clash(r.accelerator, one.2) && !Clash(r.place, one.3)
    requires !Clash(r.digest, two.0) && (r.split == "" || r.split == two.1)
    requires !Clash(r.accelerator, two.2) && !Clash(r.place, two.3)
    requires Clash(one.0, two.0) || Clash(one.1, two.1) || Clash(one.2, two.2) || Clash(one.3, two.3)
    ensures forall keys :: Uses(a, keys) && Uses(b, keys)
    ensures Comparable(r, a) && Comparable(r, b) && !Comparable(a, b)
  {
    hide Refusal, Contaminated, SharedAgree, SameExam;
    a, b := Saying(r, one.0, one.1, one.2, one.3), Saying(r, two.0, two.1, two.2, two.3);
    assert !NoClash(a, b);
    SayingApart(a, b);
    hide NoClash, Clash;
    SayingIsAccepted(r, one.0, one.1, one.2, one.3);
    SayingIsAccepted(r, two.0, two.1, two.2, two.3);
  }

  lemma UnsaidDevice(r: Receipt, keys: Keys, k: string) returns (a: Receipt, b: Receipt)
    requires !Contaminated(r) && k in keys.devices && k !in r.devices
    ensures Uses(a, keys) && Uses(b, keys) && Comparable(r, a) && Comparable(r, b) && !Comparable(a, b)
  {
    hide Refusal, Contaminated, SharedAgree, SameExam, NoClash;
    var none: Told, one: Told, two: Told := map[], map[k := "1"], map[k := "2"];
    a, b := Naming(r, one, none, none), Naming(r, two, none, none);
    NamingIsAccepted(r, one, none, none);
    NamingIsAccepted(r, two, none, none);
    NamingApart(a, b, k);
  }

  lemma UnsaidLaunch(r: Receipt, keys: Keys, k: string) returns (a: Receipt, b: Receipt)
    requires !Contaminated(r) && k in keys.launch && k !in r.launch
    ensures Uses(a, keys) && Uses(b, keys) && Comparable(r, a) && Comparable(r, b) && !Comparable(a, b)
  {
    hide Refusal, Contaminated, SharedAgree, SameExam, NoClash;
    var none: Told, one: Told, two: Told := map[], map[k := "1"], map[k := "2"];
    a, b := Naming(r, none, one, none), Naming(r, none, two, none);
    NamingIsAccepted(r, none, one, none);
    NamingIsAccepted(r, none, two, none);
    NamingApart(a, b, k);
  }

  lemma UnsaidInstrument(r: Receipt, keys: Keys, k: string) returns (a: Receipt, b: Receipt)
    requires !Contaminated(r) && k in keys.instruments && (k !in r.instruments || r.instruments[k] == "")
    ensures Uses(a, keys) && Uses(b, keys) && Comparable(r, a) && Comparable(r, b) && !Comparable(a, b)
  {
    hide Refusal, Contaminated, SharedAgree, SameExam, NoClash;
    var none: Told, one: Told, two: Told := map[], map[k := "1"], map[k := "2"];
    a, b := Naming(r, none, none, one), Naming(r, none, none, two);
    NamingIsAccepted(r, none, none, one);
    NamingIsAccepted(r, none, none, two);
    NamingApart(a, b, k);
  }

  /** And one that leaves a key unsaid. */
  lemma UnsaidKey(r: Receipt, keys: Keys, k: string) returns (a: Receipt, b: Receipt)
    requires !Contaminated(r)
    requires || (k in keys.devices && k !in r.devices)
             || (k in keys.launch && k !in r.launch)
             || (k in keys.instruments && (k !in r.instruments || r.instruments[k] == ""))
    ensures Uses(a, keys) && Uses(b, keys) && Comparable(r, a) && Comparable(r, b) && !Comparable(a, b)
  {
    hide Refusal, Contaminated, Uses;
    if k in keys.devices && k !in r.devices {
      a, b := UnsaidDevice(r, keys, k);
    } else if k in keys.launch && k !in r.launch {
      a, b := UnsaidLaunch(r, keys, k);
    } else {
      a, b := UnsaidInstrument(r, keys, k);
    }
  }

  /**
   * A run may judge the others by itself exactly when it is spoiled, and so accepts none, or records every optional
   * axis and every key the others may name.
   */
  lemma JudgesExactlyWhenItRecordsAll(r: Receipt, keys: Keys)
    ensures Judges(r, keys) <==> Contaminated(r) || RecordsAll(r, keys)
  {
    hide Refusal, SameExam, NoClash, SharedAgree;
    if Contaminated(r) {
      forall a
        ensures !Comparable(r, a)
      {
        ComparableIs(r, a);
      }
    } else if RecordsAll(r, keys) {
      forall a, b | Uses(a, keys) && Uses(b, keys) && Comparable(r, a) && Comparable(r, b)
        ensures Comparable(a, b)
      {
        AcceptedAgree(r, keys, a, b);
      }
    } else if r.digest == "" || r.split == "" || r.accelerator == "" || r.place == "" {
      var a, b := UnsaidAxis(r, keys);
    } else {
      var k := MissingKey(r, keys);
      var a, b := UnsaidKey(r, keys, k);
    }
  }

  lemma MissingKey(r: Receipt, keys: Keys) returns (k: string)
    requires !RecordsAll(r, keys) && r.digest != "" && r.split != "" && r.accelerator != "" && r.place != ""
    ensures || (k in keys.devices && k !in r.devices)
            || (k in keys.launch && k !in r.launch)
            || (k in keys.instruments && (k !in r.instruments || r.instruments[k] == ""))
  {
    if d :| d in keys.devices && d !in r.devices {
      k := d;
    } else if l :| l in keys.launch && l !in r.launch {
      k := l;
    } else {
      k :| k in keys.instruments && (k !in r.instruments || r.instruments[k] == "");
    }
  }

  /** Check each run against the first only; the first one refused, with the axis. */
  method CompareRuns(runs: seq<Receipt>) returns (refused: Option<(nat, Axis)>)
    requires runs != []
    ensures refused == None <==> forall i :: 1 <= i < |runs| ==> Comparable(runs[0], runs[i])
    ensures refused.Some? ==>
              && 1 <= refused.value.0 < |runs| && Refusal(runs[0], runs[refused.value.0]) == Some(refused.value.1)
              && forall i :: 1 <= i < refused.value.0 ==> Comparable(runs[0], runs[i])
  {
    var i := 1;
    while i < |runs|
      invariant 1 <= i <= |runs|
      invariant forall j :: 1 <= j < i ==> Comparable(runs[0], runs[j])
    {
      var why := Refusal(runs[0], runs[i]);
      if why.Some? {
        return Some((i, why.value));
      }
      i := i + 1;
    }
    refused := None;
  }

  /**
   * Once the loop has accepted them and the first records all, every two of the runs are comparable, each with itself
   * included, exactly when there are two or more or the only one is not spoiled: a run by itself is never checked.
   */
  lemma CheckingAgainstTheFirstIsEnough(runs: seq<Receipt>, keys: Keys)
    requires runs != [] && RecordsAll(runs[0], keys) && forall i :: 1 <= i < |runs| ==> Uses(runs[i], keys)
    requires forall i :: 1 <= i < |runs| ==> Comparable(runs[0], runs[i])
    ensures (forall i, j :: 0 <= i < |runs| && 0 <= j < |runs| ==> Comparable(runs[i], runs[j]))
       <==> (|runs| >= 2 || !Contaminated(runs[0]))
  {
    hide Refusal, RecordsAll, Contaminated;
    ComparableWithItself(runs[0]);
    if |runs| >= 2 {
      ComparableIs(runs[0], runs[1]);
      forall i, j | 0 <= i < |runs| && 0 <= j < |runs|
        ensures Comparable(runs[i], runs[j])
      {
        if i > 0 && j > 0 {
          AcceptedAgree(runs[0], keys, runs[i], runs[j]);
        } else if i != 0 || j != 0 {
          RefusalIsSymmetric(runs[i], runs[j]);
        }
      }
    }
  }
}
