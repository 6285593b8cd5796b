/**
 The two rollup lists that pass through environment variables: PREVIOUS_ROLLUPS and
 ROLLUP_LABELS, each with its printer and its parser.
 */
module RollupConfig {
  import opened Wrappers
  import opened Text

  datatype Previous = Previous(address: string, startBlock: nat, proposer: Option<string>)

  /** 0x followed by forty hexadecimal digits. */
  predicate IsAddress(s: string) {
    |s| == 42 && s[0] == '0' && s[1] == 'x' && forall i :: 2 <= i < 42 ==> IsHex(s[i])
  }

  // ---- PREVIOUS_ROLLUPS ----

  /** The parts that are truthy: a start block of zero is dropped like a missing proposer. */
  function PreviousParts(r: Previous): seq<string> {
    (if r.address != "" then [r.address] else [])
    + (if r.startBlock != 0 then [Decimal(r.startBlock)] else [])
    + match r.proposer case Some(p) => (if p != "" then [p] else []) case None => []
  }

  function PrintEntry(r: Previous): string {
    Join(PreviousParts(r), ':')
  }

  function PrintEntries(rollups: seq<Previous>): seq<string> {
    if rollups == [] then [] else [PrintEntry(rollups[0])] + PrintEntries(rollups[1..])
  }

  function PrintPrevious(rollups: seq<Previous>): string {
    Join(PrintEntries(rollups), ',')
  }

  /** One entry, already trimmed; an entry of another shape is an error. */
  function ParseEntry(entry: string): Result<Previous, string> {
    var parts := Split(entry, ':');
    var address, startBlock := parts[0], if |parts| > 1 then parts[1] else "";
    var proposer := if |parts| > 2 then Some(parts[2]) else None;
    if !IsAddress(address) || !IsNumeral(startBlock)
      || (proposer.Some? && proposer.value != "" && !IsAddress(proposer.value))
    then Err(entry)
    else Ok(Previous(Lower(address), Value(startBlock),
      match proposer case Some(p) => Some(Lower(p)) case None => None))
  }

  /** Trim every entry and skip the empty ones; the first bad entry is reported. */
  function ParseEntries(entries: seq<string>): Result<seq<Previous>, string> {
    if entries == [] then Ok([])
    else if Trim(entries[0]) == "" then ParseEntries(entries[1..])
    else
      match ParseEntry(Trim(entries[0]))
      case Err(e) => Err(e)
      case Ok(r) => match ParseEntries(entries[1..]) case Err(e) => Err(e) case Ok(rest) => Ok([r] + rest)
  }

  function ParsePrevious(text: string): Result<seq<Previous>, string> {
    ParseEntries(Split(text, ','))
  }

  predicate WellFormed(r: Previous) {
    IsAddress(r.address) && (r.proposer.Some? ==> IsAddress(r.proposer.value))
  }

  function Lowered(r: Previous): Previous {
    Previous(Lower(r.address), r.startBlock, match r.proposer case Some(p) => Some(Lower(p)) case None => None)
  }

  function LoweredAll(rollups: seq<Previous>): seq<Previous> {
    if rollups == [] then [] else [Lowered(rollups[0])] + LoweredAll(rollups[1..])
  }

  /** What an address looks like. */
  lemma {:induction false} AddressForm(s: string)
    ensures IsAddress(s) <==>
      |s| == 42 && s[..2] == "0x" && forall i :: 2 <= i < 42 ==> s[i] in "0123456789abcdefABCDEF"
  {
    if |s| == 42 {
      assert s[..2] == [s[0], s[1]];
    }
  }

  /**
   Which entries are accepted, given by their parts: at least an address and a numeral, and as a
   third part nothing or an address.  Further parts are ignored, and an error names the entry.
   */
  lemma {:induction false} AcceptedIff(parts: seq<string>)
    requires parts != [] && forall p :: p in parts ==> ':' !in p
    ensures var r := ParseEntry(Join(parts, ':'));
      && (r.Ok? <==> |parts| > 1 && IsAddress(parts[0]) && IsNumeral(parts[1])
                     && (|parts| > 2 && parts[2] != "" ==> IsAddress(parts[2])))
      && (r.Ok? ==> r.value.address == Lower(parts[0]) && r.value.startBlock == Value(parts[1])
                    && r.value.proposer == if |parts| > 2 then Some(Lower(parts[2])) else None)
      && (r.Err? ==> r.error == Join(parts, ':'))
  {
    hide Split, Join, IsAddress, Value, Lower;
    SplitJoin(parts, ':');
    assert !IsNumeral("");
  }

  /** A list is accepted exactly if each entry that is not blank is, and holds what these entries say. */
  lemma {:induction false} ListAcceptedIff(entries: seq<string>)
    ensures ParseEntries(entries).Ok? <==>
      forall entry :: entry in entries && Trim(entry) != "" ==> ParseEntry(Trim(entry)).Ok?
    ensures ParseEntries(entries).Ok? ==>
      forall r :: r in ParseEntries(entries).value <==>
        exists entry :: entry in entries && Trim(entry) != "" && ParseEntry(Trim(entry)) == Ok(r)
  {
    hide Trim, ParseEntry;
    if entries != [] {
      var first, rest := entries[0], entries[1..];
      assert entries == [first] + rest;
      ListAcceptedIff(rest);
    }
  }

  /**
   How an entry is printed: address, start block and proposer, without a zero start block and without
   what is empty, and colons between those that are left.
   */
  lemma {:induction false} PrintedEntry(r: Previous)
    ensures var number := if r.startBlock > 0 then Decimal(r.startBlock) else "";
      var proposer := match r.proposer case Some(p) => p case None => "";
      PrintEntry(r) == r.address + (if r.address != "" && number != "" then ":" else "") + number
        + (if r.address + number != "" && proposer != "" then ":" else "") + proposer
  {
    DecimalValue(r.startBlock);
    hide Decimal;
    var number := if r.startBlock > 0 then Decimal(r.startBlock) else "";
    var proposer := match r.proposer case Some(p) => p case None => "";
    assert PreviousParts(r) == Present(r.address) + Present(number) + Present(proposer);
    JoinPresent(r.address, number, proposer);
  }

  lemma JoinPresent(a: string, b: string, c: string)
    ensures Join(Present(a) + Present(b) + Present(c), ':')
      == a + (if a != "" && b != "" then ":" else "") + b + (if a + b != "" && c != "" then ":" else "") + c
  {
    var parts := Present(a) + Present(b) + Present(c);
    if a != "" && b != "" {
      JoinThree(a, b, c, ':');
      assert parts == if c != "" then [a, b, c] else [a, b];
    } else {
      var first := if a != "" then a else b;
      JoinThree(first, c, "", ':');
      assert a + b == first;
      assert parts == if first == "" then Present(c) else if c != "" then [first, c] else [first];
      JoinThree(c, "", "", ':');
    }
  }

  function Present(part: string): seq<string> {
    if part == "" then [] else [part]
  }

  lemma JoinThree(a: string, b: string, c: string, sep: char)
    ensures Join([a], sep) == a && Join([a, b], sep) == a + [sep] + b
    ensures Join([a, b, c], sep) == a + [sep] + b + [sep] + c
  {
    assert [a, b][1..] == [b] && [a, b, c][1..] == [b, c] && [b, c][1..] == [c];
    assert Join([b, c], sep) == b + [sep] + c;
  }

  /** And how the list is: its entries with commas between them. */
  lemma {:induction false} PrintedList(rollups: seq<Previous>)
    ensures rollups == [] ==> PrintPrevious(rollups) == ""
    ensures |rollups| == 1 ==> PrintPrevious(rollups) == PrintEntry(rollups[0])
    ensures |rollups| > 1 ==> PrintPrevious(rollups) == PrintEntry(rollups[0]) + "," + PrintPrevious(rollups[1..])
  {
    hide PrintEntry;
    if rollups != [] {
      assert PrintEntries(rollups)[1..] == PrintEntries(rollups[1..]);
      assert |rollups| > 1 ==> PrintEntries(rollups[1..]) != [];
    }
  }

  /** Characters that occur in addresses and numerals: none is a separator or a space. */
  predicate IsWordChar(c: char) {
    IsHex(c) || c == 'x'
  }

  predicate IsWord(s: string) {
    s != "" && forall c :: c in s ==> IsWordChar(c)
  }

  lemma AddressIsWord(s: string)
    requires IsAddress(s)
    ensures IsWord(s) && !IsNumeral(s)
  {
    assert s[1] in s;
    forall c | c in s ensures IsWordChar(c) {
      var i :| 0 <= i < |s| && s[i] == c;
    }
  }

  lemma TrimWord(s: string)
    requires s != "" && !IsSpace(s[0]) && !IsSpace(s[|s| - 1])
    ensures Trim(s) == s
  {
  }

  lemma {:induction false} JoinEnds(parts: seq<string>, sep: char)
    requires parts != [] && forall p :: p in parts ==> IsWord(p)
    ensures Join(parts, sep) != "" && IsWordChar(Join(parts, sep)[0])
      && IsWordChar(Join(parts, sep)[|Join(parts, sep)| - 1])
    ensures forall c :: c in Join(parts, sep) ==> IsWordChar(c) || c == sep
  {
    assert parts[0] in parts && parts[0][0] in parts[0] && parts[0][|parts[0]| - 1] in parts[0];
    if |parts| > 1 {
      assert forall p :: p in parts[1..] ==> p in parts;
      JoinEnds(parts[1..], sep);
    }
  }

  lemma PartsAreWords(r: Previous)
    requires WellFormed(r)
    ensures forall p :: p in PreviousParts(r) ==> IsWord(p) && ':' !in p
    ensures PreviousParts(r) != []
  {
    DecimalValue(r.startBlock);
    AddressIsWord(r.address);
    if r.proposer.Some? {
      AddressIsWord(r.proposer.value);
    }
    hide Decimal, IsAddress;
    assert forall s: string :: IsWord(s) ==> ':' !in s;
    assert IsNumeral(Decimal(r.startBlock)) ==> IsWord(Decimal(r.startBlock));
  }

  lemma {:induction false} ParsedParts(r: Previous, entry: string)
    requires WellFormed(r) && Split(entry, ':') == PreviousParts(r)
    ensures r.startBlock > 0 ==> ParseEntry(entry) == Ok(Lowered(r))
    ensures r.startBlock == 0 ==> ParseEntry(entry).Err?
  {
    DecimalValue(r.startBlock);
    AddressIsWord(r.address);
    if r.proposer.Some? {
      AddressIsWord(r.proposer.value);
    }
    hide Split, Decimal, Lower, Value;
  }

  /** An entry comes back lower-cased when its start block is positive, and is refused when it is zero. */
  lemma EntryRoundTrip(r: Previous)
    requires WellFormed(r)
    ensures PrintEntry(r) != "" && Trim(PrintEntry(r)) == PrintEntry(r) && ',' !in PrintEntry(r)
    ensures r.startBlock > 0 ==> ParseEntry(PrintEntry(r)) == Ok(Lowered(r))
    ensures r.startBlock == 0 ==> ParseEntry(PrintEntry(r)).Err?
  {
    hide PreviousParts, ParseEntry, Lowered, Join, Split, WellFormed, Trim;
    PartsAreWords(r);
    JoinEnds(PreviousParts(r), ':');
    TrimWord(PrintEntry(r));
    SplitJoin(PreviousParts(r), ':');
    ParsedParts(r, PrintEntry(r));
  }

  ghost predicate AllPositive(rollups: seq<Previous>) {
    forall r :: r in rollups ==> r.startBlock > 0
  }

  lemma {:induction false} EntriesRoundTrip(rollups: seq<Previous>)
    requires forall r :: r in rollups ==> WellFormed(r)
    ensures |PrintEntries(rollups)| == |rollups| && forall e :: e in PrintEntries(rollups) ==> ',' !in e
    ensures if AllPositive(rollups) then ParseEntries(PrintEntries(rollups)) == Ok(LoweredAll(rollups))
      else ParseEntries(PrintEntries(rollups)).Err?
  {
    hide PrintEntry, ParseEntry, Trim, WellFormed, Lowered;
    if rollups != [] {
      var first, rest := rollups[0], rollups[1..];
      EntryRoundTrip(first);
      EntriesRoundTrip(rest);
      assert rollups == [first] + rest;
      assert AllPositive(rollups) <==> first.startBlock > 0 && AllPositive(rest);
    }
  }

  /**
   Parsing the printed list gives back the list in lower case exactly when every start
   block is positive; with a start block of zero among them it is refused altogether.
   */
  lemma PreviousRoundTrip(rollups: seq<Previous>)
    requires forall r :: r in rollups ==> WellFormed(r)
    ensures ParsePrevious(PrintPrevious(rollups)) == Ok(LoweredAll(rollups)) <==> AllPositive(rollups)
    ensures ParsePrevious(PrintPrevious(rollups)).Ok? <==> AllPositive(rollups)
  {
    EntriesRoundTrip(rollups);
    if rollups == [] {
      assert Split("", ',') == [""];
      assert ParseEntries([""]) == ParseEntries([""][1..]);
      assert [""][1..] == [];
    } else {
      SplitJoin(PrintEntries(rollups), ',');
    }
  }

  // ---- ROLLUP_LABELS ----

  /** An address and its label; an empty string stands for a missing one. */
  datatype Labelled = Labelled(address: string, name: string)

  type Labels = map<string, string>

  /** Pairs with an address and a label. */
  function Kept(pairs: seq<Labelled>): seq<Labelled> {
    if pairs == [] then []
    else Kept(pairs[..|pairs| - 1]) + var last := pairs[|pairs| - 1];
      if last.address != "" && last.name != "" then [last] else []
  }

  function PrintLabel(l: Labelled): string {
    Lower(l.address) + ":" + l.name
  }

  function PrintKept(pairs: seq<Labelled>): seq<string> {
    if pairs == [] then [] else PrintKept(pairs[..|pairs| - 1]) + [PrintLabel(pairs[|pairs| - 1])]
  }

  function PrintLabels(pairs: seq<Labelled>): string {
    Join(PrintKept(Kept(pairs)), ',')
  }

  lemma {:induction false} JoinMore(parts: seq<string>, last: string, sep: char)
    requires parts != []
    ensures Join(parts + [last], sep) == Join(parts, sep) + [sep] + last
  {
    assert (parts + [last])[1..] == parts[1..] + [last];
    if |parts| > 1 {
      JoinMore(parts[1..], last, sep);
    } else {
      assert parts[1..] + [last] == [last];
    }
  }

  /** How the list is printed: lower-cased address, colon and label, with commas between, and no incomplete pair. */
  lemma {:induction false} PrintedLabels(pairs: seq<Labelled>, last: Labelled)
    ensures last.address == "" || last.name == "" ==> PrintLabels(pairs + [last]) == PrintLabels(pairs)
    ensures last.address != "" && last.name != "" ==>
      PrintLabels(pairs + [last]) == (if Kept(pairs) == [] then "" else PrintLabels(pairs) + ",")
        + Lower(last.address) + ":" + last.name
    ensures Kept(pairs) == [] <==> forall l :: l in pairs ==> l.address == "" || l.name == ""
  {
    hide Join, Lower, PrintLabel, Kept, PrintKept;
    KeptMembers(pairs);
    KeptNext(pairs, last);
    if last.address != "" && last.name != "" {
      LabelText(last);
      OneOrMore(PrintKept(Kept(pairs)), PrintLabel(last));
    }
  }

  lemma KeptNext(pairs: seq<Labelled>, last: Labelled)
    ensures last.address == "" || last.name == "" ==> Kept(pairs + [last]) == Kept(pairs)
    ensures last.address != "" && last.name != "" ==>
      PrintKept(Kept(pairs + [last])) == PrintKept(Kept(pairs)) + [PrintLabel(last)]
    ensures PrintKept(Kept(pairs)) == [] <==> Kept(pairs) == []
  {
    hide PrintLabel;
    var kept := Kept(pairs);
    assert (pairs + [last])[..|pairs|] == pairs;
    assert kept + [] == kept && (kept + [last])[..|kept|] == kept;
  }

  lemma LabelText(l: Labelled)
    ensures PrintLabel(l) == Lower(l.address) + ":" + l.name
  {
  }

  lemma OneOrMore(parts: seq<string>, last: string)
    ensures Join(parts + [last], ',') == (if parts == [] then "" else Join(parts, ',') + ",") + last
  {
    if parts == [] {
      assert parts + [last] == [last];
    } else {
      JoinMore(parts, last, ',');
    }
  }

  lemma {:induction false} KeptMembers(pairs: seq<Labelled>)
    ensures forall l :: l in Kept(pairs) <==> l in pairs && l.address != "" && l.name != ""
    ensures Kept(pairs) == [] <==> forall l :: l in pairs ==> l.address == "" || l.name == ""
  {
    if pairs != [] {
      var before, last := pairs[..|pairs| - 1], pairs[|pairs| - 1];
      KeptMembers(before);
      assert pairs == before + [last];
    }
  }

  function Assign(labels: Labels, address: string, name: string): Labels {
    if address != "" && name != "" then labels[Lower(address) := name] else labels
  }

  /** One entry of the list: what stands before the first colon and between it and the next. */
  function ReadEntry(labels: Labels, entry: string): Labels {
    var parts := Split(Trim(entry), ':');
    Assign(labels, parts[0], if |parts| > 1 then parts[1] else "")
  }

  function ReadEntries(entries: seq<string>): Labels {
    if entries == [] then map[] else ReadEntry(ReadEntries(entries[..|entries| - 1]), entries[|entries| - 1])
  }

  function ParseLabels(text: string): Labels {
    ReadEntries(Split(text, ','))
  }

  /** The labels the printer means: for each address its last one. */
  function LabelsOf(pairs: seq<Labelled>): Labels {
    if pairs == [] then map[]
    else var last := pairs[|pairs| - 1]; Assign(LabelsOf(pairs[..|pairs| - 1]), last.address, last.name)
  }

  method RollupLabels(text: string) returns (labels: Labels)
    ensures labels == ParseLabels(text)
  {
    var entries := Split(text, ',');
    labels := map[];
    for i := 0 to |entries|
      invariant labels == ReadEntries(entries[..i])
    {
      var parts := Split(Trim(entries[i]), ':');
      if parts[0] != "" && |parts| > 1 && parts[1] != "" {
        labels := labels[Lower(parts[0]) := parts[1]];
      }
      assert entries[..i + 1][..i] == entries[..i];
    }
    assert entries[..|entries|] == entries;
  }

  /** One entry of the list gives an address, in lower case, a label. */
  ghost predicate Gives(entry: string, key: string, name: string) {
    var parts := Split(Trim(entry), ':');
    |parts| > 1 && parts[0] != "" && Lower(parts[0]) == key && parts[1] == name && name != ""
  }

  ghost predicate GivesLater(entries: seq<string>, i: nat, key: string) {
    exists j, name :: i < j < |entries| && Gives(entries[j], key, name)
  }

  /** An address has the label of the last entry that gives it one, and no other address has any. */
  lemma {:induction false} LastLabelWins(entries: seq<string>, key: string)
    ensures forall i, name :: 0 <= i < |entries| && Gives(entries[i], key, name) && !GivesLater(entries, i, key) ==>
      key in ReadEntries(entries) && ReadEntries(entries)[key] == name
    ensures key in ReadEntries(entries) ==> exists i, name :: 0 <= i < |entries| && Gives(entries[i], key, name)
  {
    hide Split, Trim, Lower;
    if entries != [] {
      var k := |entries| - 1;
      var before := entries[..k];
      LastLabelWins(before, key);
      assert forall j :: 0 <= j < k ==> before[j] == entries[j];
      LastEntry(ReadEntries(before), entries[k], key);
      forall i, name | 0 <= i < k && Gives(entries[i], key, name) && !GivesLater(entries, i, key)
        ensures key in ReadEntries(entries) && ReadEntries(entries)[key] == name
      {
        assert Gives(before[i], key, name);
        assert !GivesLater(before, i, key);
        assert forall other :: !Gives(entries[k], key, other);
      }
    }
  }

  lemma LastEntry(labels: Labels, entry: string, key: string)
    ensures forall name :: Gives(entry, key, name) ==>
      key in ReadEntry(labels, entry) && ReadEntry(labels, entry)[key] == name
    ensures (forall name :: !Gives(entry, key, name)) ==>
      (key in ReadEntry(labels, entry) <==> key in labels)
      && (key in labels ==> ReadEntry(labels, entry)[key] == labels[key])
  {
    var parts := Split(Trim(entry), ':');
    hide Split, Trim, Lower;
    if |parts| > 1 && parts[0] != "" && parts[1] != "" {
      assert Gives(entry, Lower(parts[0]), parts[1]);
    }
  }

  /** A label the format can carry. */
  predicate CleanLabel(name: string) {
    ',' !in name && ':' !in name && (name != "" ==> !IsSpace(name[|name| - 1]))
  }

  predicate NoSeparators(pairs: seq<Labelled>) {
    forall l :: l in pairs ==> ',' !in l.name && ':' !in l.name
  }

  ghost predicate Addressed(pairs: seq<Labelled>) {
    forall l :: l in pairs ==> IsAddress(l.address) && l.name != ""
  }

  ghost predicate DistinctAddresses(pairs: seq<Labelled>) {
    forall i, j :: 0 <= i < j < |pairs| ==> Lower(pairs[i].address) != Lower(pairs[j].address)
  }

  function TrimmedLabels(pairs: seq<Labelled>): seq<Labelled> {
    if pairs == [] then []
    else TrimmedLabels(pairs[..|pairs| - 1]) + var last := pairs[|pairs| - 1]; [last.(name := TrimEnd(last.name))]
  }

  lemma LowerAddress(a: string)
    requires IsAddress(a)
    ensures IsAddress(Lower(a)) && Lower(Lower(a)) == Lower(a) && Lower(a)[0] == '0' && ':' !in Lower(a)
      && ',' !in Lower(a)
  {
    var l := Lower(a);
    forall i | 0 <= i < |l| ensures LowerChar(l[i]) == l[i] && l[i] != ':' && l[i] != ',' {
      assert IsWordChar(a[i]);
    }
    assert Lower(l) == l;
  }

  /** What one printed label reads as: the label without trailing spaces, or nothing. */
  lemma ReadPrinted(labels: Labels, l: Labelled)
    requires IsAddress(l.address) && ':' !in l.name
    ensures ReadEntry(labels, PrintLabel(l)) == Assign(labels, l.address, TrimEnd(l.name))
  {
    var a := Lower(l.address);
    LowerAddress(l.address);
    var head := a + ":";
    assert PrintLabel(l) == head + l.name && PrintLabel(l)[0] == '0';
    assert TrimStart(PrintLabel(l)) == PrintLabel(l);
    TrimEndAfter(head, l.name);
    TrimEndParts(l.name);
    SplitFirst(a, ':', TrimEnd(l.name));
    SplitWhole(TrimEnd(l.name), ':');
  }

  /** Labels without separators are read back without their trailing spaces. */
  lemma {:induction false} ReadKept(pairs: seq<Labelled>)
    requires Addressed(pairs) && NoSeparators(pairs)
    ensures ReadEntries(PrintKept(pairs)) == LabelsOf(TrimmedLabels(pairs))
    ensures |PrintKept(pairs)| == |pairs| && forall e :: e in PrintKept(pairs) ==> ',' !in e
  {
    hide ReadEntry, Assign, Lower, TrimEnd, IsAddress;
    if pairs != [] {
      var before, last := pairs[..|pairs| - 1], pairs[|pairs| - 1];
      assert pairs == before + [last];
      ReadKept(before);
      ReadPrinted(ReadEntries(PrintKept(before)), last);
      LowerAddress(last.address);
    }
  }

  /** With distinct addresses each label is found under its address. */
  lemma {:induction false} LabelAt(pairs: seq<Labelled>, i: nat)
    requires DistinctAddresses(pairs) && i < |pairs| && forall l :: l in pairs ==> l.address != ""
    ensures var key := Lower(pairs[i].address);
      if pairs[i].name == "" then key !in LabelsOf(pairs)
        else key in LabelsOf(pairs) && LabelsOf(pairs)[key] == pairs[i].name
  {
    var k := |pairs| - 1;
    assert pairs == pairs[..k] + [pairs[k]];
    if i < k {
      LabelAt(pairs[..k], i);
    } else {
      AddressAbsent(pairs[..k], Lower(pairs[k].address));
    }
  }

  lemma {:induction false} AddressAbsent(pairs: seq<Labelled>, key: string)
    requires forall l :: l in pairs ==> Lower(l.address) != key
    ensures key !in LabelsOf(pairs)
  {
    if pairs != [] {
      AddressAbsent(pairs[..|pairs| - 1], key);
    }
  }

  ghost predicate NoneSeparated(labels: Labels) {
    forall key :: key in labels ==> ',' !in labels[key] && ':' !in labels[key]
  }

  lemma ReadEntryClean(labels: Labels, entry: string)
    requires NoneSeparated(labels) && ',' !in entry
    ensures NoneSeparated(ReadEntry(labels, entry))
  {
    var parts := Split(Trim(entry), ':');
    SplitParts(Trim(entry), ':');
    TrimFrom(entry);
    hide Trim, Split, Lower;
    assert |parts| > 1 ==> parts[1] in parts;
  }

  /** No label that is read contains a separator. */
  lemma {:induction false} ReadLabelsClean(entries: seq<string>)
    requires forall e :: e in entries ==> ',' !in e
    ensures NoneSeparated(ReadEntries(entries))
  {
    hide ReadEntry;
    if entries != [] {
      var before, last := entries[..|entries| - 1], entries[|entries| - 1];
      assert entries == before + [last];
      ReadLabelsClean(before);
      ReadEntryClean(ReadEntries(before), last);
    }
  }

  lemma {:induction false} TrimStartFrom(s: string)
    ensures forall c :: c in TrimStart(s) ==> c in s
  {
    if s != "" && IsSpace(s[0]) {
      TrimStartFrom(s[1..]);
    }
  }

  lemma TrimFrom(s: string)
    ensures forall c :: c in Trim(s) ==> c in s
  {
    TrimStartFrom(s);
    TrimEndParts(TrimStart(s));
  }

  lemma {:induction false} TrimmedAt(pairs: seq<Labelled>)
    ensures |TrimmedLabels(pairs)| == |pairs|
    ensures forall i :: 0 <= i < |pairs| ==> TrimmedLabels(pairs)[i] == pairs[i].(name := TrimEnd(pairs[i].name))
  {
    if pairs != [] {
      TrimmedAt(pairs[..|pairs| - 1]);
    }
  }

  lemma TrimEndClean(s: string)
    ensures TrimEnd(s) == s <==> s == "" || !IsSpace(s[|s| - 1])
  {
    TrimEndParts(s);
  }

  lemma PrintedText(kept: seq<Labelled>)
    requires Addressed(kept) && NoSeparators(kept)
    ensures ReadEntries(Split(Join(PrintKept(kept), ','), ',')) == LabelsOf(TrimmedLabels(kept))
  {
    ReadKept(kept);
    if kept == [] {
      assert Split("", ',') == [""] && [""][..0] == [];
    } else {
      SplitJoin(PrintKept(kept), ',');
    }
  }

  lemma {:induction false} CleanComesBack(kept: seq<Labelled>)
    requires Addressed(kept) && forall l :: l in kept ==> CleanLabel(l.name)
    ensures ReadEntries(Split(Join(PrintKept(kept), ','), ',')) == LabelsOf(kept)
  {
    PrintedText(kept);
    TrimmedAt(kept);
    hide Split, Join, LabelsOf, ReadEntries, TrimEnd, TrimmedLabels, PrintKept, IsAddress, IsSpace;
    forall i | 0 <= i < |kept| ensures TrimEnd(kept[i].name) == kept[i].name {
      assert kept[i] in kept;
      TrimEndClean(kept[i].name);
    }
    assert TrimmedLabels(kept) == kept;
  }

  lemma KeptAddresses(kept: seq<Labelled>)
    requires Addressed(kept)
    ensures forall l :: l in kept ==> l.address != "" && l.name != ""
  {
  }

  lemma {:induction false} SeparatorsShow(kept: seq<Labelled>)
    requires Addressed(kept) && DistinctAddresses(kept)
    requires ReadEntries(Split(Join(PrintKept(kept), ','), ',')) == LabelsOf(kept)
    ensures NoSeparators(kept)
  {
    var text := Join(PrintKept(kept), ',');
    SplitParts(text, ',');
    ReadLabelsClean(Split(text, ','));
    KeptAddresses(kept);
    hide Split, Join, LabelsOf, ReadEntries, PrintKept, IsAddress, Lower, Addressed;
    forall l | l in kept ensures ',' !in l.name && ':' !in l.name {
      var i :| 0 <= i < |kept| && kept[i] == l;
      LabelAt(kept, i);
    }
  }

  lemma {:induction false} TrimmedKeys(kept: seq<Labelled>)
    requires Addressed(kept) && DistinctAddresses(kept)
    ensures DistinctAddresses(TrimmedLabels(kept))
    ensures forall l :: l in TrimmedLabels(kept) ==> l.address != ""
  {
    KeptAddresses(kept);
    TrimmedAt(kept);
    hide TrimEnd, TrimmedLabels, IsAddress, Lower, Addressed;
    forall l | l in TrimmedLabels(kept) ensures l.address != "" {
      var i :| 0 <= i < |kept| && TrimmedLabels(kept)[i] == l;
      assert kept[i] in kept;
    }
  }

  lemma {:induction false} SpacesShow(kept: seq<Labelled>, l: Labelled)
    requires Addressed(kept) && DistinctAddresses(kept) && NoSeparators(kept) && l in kept
    requires LabelsOf(TrimmedLabels(kept)) == LabelsOf(kept)
    ensures TrimEnd(l.name) == l.name
  {
    hide LabelsOf, TrimEnd, TrimmedLabels, IsAddress, Lower, Addressed, DistinctAddresses, NoSeparators;
    KeptAddresses(kept);
    TrimmedKeys(kept);
    TrimmedAt(kept);
    var i :| 0 <= i < |kept| && kept[i] == l;
    LabelAt(kept, i);
    LabelAt(TrimmedLabels(kept), i);
  }

  /**
   Parsing the printed labels gives back every label exactly when no label contains a
   comma or a colon or ends in a space.
   */
  lemma {:induction false} LabelsRoundTrip(pairs: seq<Labelled>)
    requires Addressed(Kept(pairs)) && DistinctAddresses(Kept(pairs))
    ensures ParseLabels(PrintLabels(pairs)) == LabelsOf(Kept(pairs))
      <==> forall l :: l in Kept(pairs) ==> CleanLabel(l.name)
  {
    hide Kept, Split, Join, LabelsOf, ReadEntries, TrimEnd, TrimmedLabels, PrintKept, IsAddress, IsSpace, Addressed,
      DistinctAddresses;
    var kept := Kept(pairs);
    if forall l :: l in kept ==> CleanLabel(l.name) {
      CleanComesBack(kept);
    }
    if ParseLabels(PrintLabels(pairs)) == LabelsOf(kept) {
      SeparatorsShow(kept);
      PrintedText(kept);
      forall l | l in kept ensures CleanLabel(l.name) {
        SpacesShow(kept, l);
        TrimEndClean(l.name);
      }
    }
  }
}
