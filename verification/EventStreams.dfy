/**
 Event streams as section 9.2.6 of the WHATWG HTML Standard interprets them, and for which streams the readers,
 which take every line that begins with `data: ` as an event, read the same data.
 */
module EventStreams {
  import opened Streams

  // ---------- The standard ----------

  /** The field name of a line: what comes before its first colon. A comment has none. */
  function NameOf(line: string): (name: string)
    ensures name <= line && (name == line || line[|name|] == ':')
  {
    if line == "" || line[0] == ':' then "" else [line[0]] + NameOf(line[1..])
  }

  /** The field value: what comes after the colon, without one leading space. */
  function ValueOf(line: string): string {
    var name := NameOf(line);
    if name == line then ""
    else
      var value := line[|name| + 1..];
      if " " <= value then value[1..] else value
  }

  predicate IsData(line: string) {
    NameOf(line) == "data"
  }

  /**
   The data of the events dispatched: a blank line dispatches what the data fields before it have
   collected, if any.
   */
  function Interpret(lines: seq<string>, buffer: string): seq<string> {
    if lines == [] then []
    else if lines[0] == "" then Dispatched(buffer) + Interpret(lines[1..], "")
    else if IsData(lines[0]) then Interpret(lines[1..], buffer + ValueOf(lines[0]) + "\n")
    else Interpret(lines[1..], buffer)
  }

  /** The buffer without its last line feed, unless it is empty. */
  function Dispatched(buffer: string): seq<string> {
    if buffer == "" then [] else [buffer[..|buffer| - 1]]
  }

  // ---------- Blocks ----------

  /** Lines of one event: none is blank, and as lines none contains a line feed. */
  predicate IsBlock(block: seq<string>) {
    forall line <- block :: line != "" && '\n' !in line
  }

  /** Blocks, each ended by a blank line. */
  function Lines(blocks: seq<seq<string>>): seq<string> {
    if blocks == [] then [] else Lines(blocks[..|blocks| - 1]) + blocks[|blocks| - 1] + [""]
  }

  /** What a block's data fields collect. */
  function Collected(block: seq<string>): string {
    if block == [] then ""
    else (if IsData(block[0]) then ValueOf(block[0]) + "\n" else "") + Collected(block[1..])
  }

  function DataFields(block: seq<string>): nat {
    if block == [] then 0 else (if IsData(block[0]) then 1 else 0) + DataFields(block[1..])
  }

  /** The block has at most one data field, and if it has one, a space follows its colon. */
  predicate IsPlain(block: seq<string>) {
    DataFields(block) == |Payloads(block)| <= 1
  }

  // ---------- Comparison ----------

  lemma SpacedIsData(line: string)
    requires DATA <= line
    ensures IsData(line) && ValueOf(line) == line[|DATA|..]
  {
    var name := NameOf(line);
    assert line[..4] == "data" && line[4] == ':' && line[5] == ' ';
    assert NameOf(line) == "data" by {
      assert line[1..][1..][1..][1..] == line[4..];
      assert NameOf(line[4..]) == "";
      assert NameOf(line[3..]) == "a" by { assert line[3..][1..] == line[4..]; }
      assert NameOf(line[2..]) == "ta" by { assert line[2..][1..] == line[3..]; }
      assert NameOf(line[1..]) == "ata" by { assert line[1..][1..] == line[2..]; }
    }
    assert line[5..][1..] == line[6..];
  }

  lemma {:induction false} InterpretBlock(block: seq<string>, rest: seq<string>, buffer: string)
    requires IsBlock(block)
    ensures Interpret(block + [""] + rest, buffer) == Dispatched(buffer + Collected(block)) + Interpret(rest, "")
    decreases |block|
  {
    hide IsData, ValueOf, Dispatched;
    var lines := block + [""] + rest;
    if block == [] {
      assert lines == [""] + rest && buffer + "" == buffer;
    } else {
      assert block[0] in block && forall line <- block[1..] :: line in block;
      assert lines[1..] == block[1..] + [""] + rest;
      if IsData(block[0]) {
        var added := ValueOf(block[0]) + "\n";
        InterpretBlock(block[1..], rest, buffer + ValueOf(block[0]) + "\n");
        assert buffer + ValueOf(block[0]) + "\n" + Collected(block[1..]) == buffer + (added + Collected(block[1..]));
      } else {
        InterpretBlock(block[1..], rest, buffer);
        assert "" + Collected(block[1..]) == Collected(block[1..]);
      }
    }
  }

  lemma {:induction false} InterpretBlocks(blocks: seq<seq<string>>, rest: seq<string>)
    requires forall b <- blocks :: IsBlock(b)
    ensures Interpret(Lines(blocks) + rest, "") == Interpret(Lines(blocks), "") + Interpret(rest, "")
    decreases |blocks|
  {
    if blocks == [] {
      assert Lines(blocks) + rest == rest;
    } else {
      var before, last := blocks[..|blocks| - 1], blocks[|blocks| - 1];
      assert last in blocks;
      InterpretBlocks(before, last + [""] + rest);
      InterpretBlocks(before, last + [""]);
      InterpretBlock(last, rest, "");
      InterpretBlock(last, [], "");
      assert Lines(blocks) + rest == Lines(before) + (last + [""] + rest);
      assert Lines(blocks) == Lines(before) + (last + [""]);
      assert last + [""] + [] == last + [""];
    }
  }

  /** One block more adds its payloads to what the readers read, and at most one event to what the standard reads. */
  lemma OneBlockMore(blocks: seq<seq<string>>)
    requires blocks != [] && forall b <- blocks :: IsBlock(b)
    ensures
      var before, last := blocks[..|blocks| - 1], blocks[|blocks| - 1];
      && Payloads(Lines(blocks)) == Payloads(Lines(before)) + Payloads(last)
      && Interpret(Lines(blocks), "") == Interpret(Lines(before), "") + Dispatched(Collected(last))
  {
    var before, last := blocks[..|blocks| - 1], blocks[|blocks| - 1];
    assert last in blocks;
    PayloadsOfConcat(Lines(before) + last, [""]);
    PayloadsOfConcat(Lines(before), last);
    assert Payloads([""]) == [];
    InterpretBlocks(before, last + [""]);
    InterpretBlock(last, [], "");
    assert last + [""] + [] == last + [""] && "" + Collected(last) == Collected(last);
    assert Lines(blocks) == Lines(before) + (last + [""]);
  }

  lemma {:induction false} FieldsBound(block: seq<string>)
    requires IsBlock(block)
    ensures |Payloads(block)| <= DataFields(block)
    ensures DataFields(block) == 0 <==> Collected(block) == ""
    ensures forall p <- Payloads(block) :: '\n' !in p
  {
    if block != [] {
      assert block[0] in block && forall line <- block[1..] :: line in block;
      FieldsBound(block[1..]);
      if DATA <= block[0] {
        SpacedIsData(block[0]);
      }
    }
  }

  /** With two data fields or more, the data dispatched contains a line feed. */
  lemma {:induction false} JoinedHasLineFeed(block: seq<string>)
    requires IsBlock(block) && DataFields(block) > 1
    ensures |Collected(block)| > 0 && '\n' in Collected(block)[..|Collected(block)| - 1]
  {
    var rest := block[1..];
    assert forall line <- rest :: line in block;
    if IsData(block[0]) {
      FieldsBound(rest);
      var v := ValueOf(block[0]);
      assert Collected(block)[|v|] == '\n' && |v| < |Collected(block)| - 1;
      assert Collected(block)[..|Collected(block)| - 1][|v|] == '\n';
    } else {
      JoinedHasLineFeed(rest);
      assert Collected(block) == Collected(rest);
    }
  }

  lemma {:induction false} OneFieldCollects(block: seq<string>)
    requires IsBlock(block) && DataFields(block) == 1
    ensures Payloads(block) != [] ==> Dispatched(Collected(block)) == Payloads(block)
  {
    var rest := block[1..];
    assert forall line <- rest :: line in block;
    FieldsBound(rest);
    if IsData(block[0]) {
      if DATA <= block[0] {
        SpacedIsData(block[0]);
      }
      assert Collected(block) == ValueOf(block[0]) + "\n";
      assert Dispatched(Collected(block)) == [ValueOf(block[0])];
    } else {
      if DATA <= block[0] {
        SpacedIsData(block[0]);
      }
      OneFieldCollects(rest);
      assert Collected(block) == Collected(rest);
    }
  }

  /** A block is read as the standard reads it exactly when it is plain. */
  lemma BlockAgreesExactlyWhen(block: seq<string>)
    requires IsBlock(block)
    ensures Payloads(block) == Dispatched(Collected(block)) <==> IsPlain(block)
  {
    FieldsBound(block);
    if DataFields(block) == 1 {
      OneFieldCollects(block);
    } else if DataFields(block) > 1 {
      JoinedHasLineFeed(block);
      assert Dispatched(Collected(block))[0] !in Payloads(block);
    }
  }

  /** After the first `k` events the readers have found the payloads that the standard has dispatched. */
  predicate AgreesUpTo(blocks: seq<seq<string>>, k: nat)
    requires k <= |blocks|
  {
    Payloads(Lines(blocks[..k])) == Interpret(Lines(blocks[..k]), "")
  }

  /** If that is so before the last event, it is so after it exactly when the last event is plain. */
  lemma LastAgreesExactlyWhen(blocks: seq<seq<string>>)
    requires blocks != [] && forall b <- blocks :: IsBlock(b)
    requires AgreesUpTo(blocks, |blocks| - 1)
    ensures AgreesUpTo(blocks, |blocks|) <==> IsPlain(blocks[|blocks| - 1])
  {
    hide IsPlain, Payloads, Interpret, Lines, Collected, Dispatched;
    var last := blocks[|blocks| - 1];
    assert last in blocks && blocks[..|blocks|] == blocks;
    OneBlockMore(blocks);
    BlockAgreesExactlyWhen(last);
    Cancel(Payloads(Lines(blocks[..|blocks| - 1])), Payloads(last), Dispatched(Collected(last)));
  }

  lemma Cancel<T>(a: seq<T>, b: seq<T>, c: seq<T>)
    ensures a + b == a + c <==> b == c
  {
    assert (a + b)[|a|..] == b && (a + c)[|a|..] == c;
  }

  /**
   The payloads that the readers find are, after every complete event of a stream, the data that the standard
   dispatches, if and only if every event has at most one data field, with a space after its colon.
   */
  lemma {:induction false} AgreesWithStandardExactlyWhen(blocks: seq<seq<string>>)
    requires forall b <- blocks :: IsBlock(b)
    ensures (forall k | 0 <= k <= |blocks| :: AgreesUpTo(blocks, k)) <==> (forall b <- blocks :: IsPlain(b))
    decreases |blocks|
  {
    if blocks == [] {
      assert AgreesUpTo(blocks, 0);
    } else {
      hide AgreesUpTo, IsPlain, IsBlock;
      var n := |blocks| - 1;
      var before, last := blocks[..n], blocks[n];
      assert blocks == before + [last];
      AgreesWithStandardExactlyWhen(before);
      forall k | 0 <= k <= n
        ensures AgreesUpTo(before, k) == AgreesUpTo(blocks, k)
      {
        SamePrefix(before, blocks, k);
      }
      if AgreesUpTo(blocks, n) {
        LastAgreesExactlyWhen(blocks);
      }
    }
  }

  lemma SamePrefix(before: seq<seq<string>>, blocks: seq<seq<string>>, k: nat)
    requires before <= blocks && k <= |before|
    ensures AgreesUpTo(before, k) == AgreesUpTo(blocks, k)
  {
    assert before[..k] == blocks[..k];
  }
}
