/** The messages a pane sends to its subscribers. */
module Protocol {
  datatype Message = Message(op: string, mode: string, data: string)

  /** An append: live output, and every frame of a long reset but its first. */
  predicate IsAppendTermOutput(m: Message) {
    m.op == "term.output" && m.mode == "append"
  }

  function Appends(s: seq<Message>): seq<Message> {
    if s == [] then [] else Appends(s[..|s| - 1]) + (if IsAppendTermOutput(s[|s| - 1]) then [s[|s| - 1]] else [])
  }

  function Others(s: seq<Message>): seq<Message> {
    if s == [] then [] else Others(s[..|s| - 1]) + (if IsAppendTermOutput(s[|s| - 1]) then [] else [s[|s| - 1]])
  }

  lemma {:induction false} SplitConcat(a: seq<Message>, b: seq<Message>)
    ensures Appends(a + b) == Appends(a) + Appends(b)
    ensures Others(a + b) == Others(a) + Others(b)
  {
    if b == [] {
      assert a + b == a;
    } else {
      SplitConcat(a, b[..|b| - 1]);
      assert (a + b)[..|a + b| - 1] == a + b[..|b| - 1];
    }
  }

  lemma SplitSnoc(s: seq<Message>, m: Message)
    ensures Appends(s + [m]) == if IsAppendTermOutput(m) then Appends(s) + [m] else Appends(s)
    ensures Others(s + [m]) == if IsAppendTermOutput(m) then Others(s) else Others(s) + [m]
  {
  }

  lemma {:induction false} SplitHead(s: seq<Message>)
    requires s != []
    ensures Appends(s) == (if IsAppendTermOutput(s[0]) then [s[0]] else []) + Appends(s[1..])
    ensures Others(s) == (if IsAppendTermOutput(s[0]) then [] else [s[0]]) + Others(s[1..])
  {
    SplitConcat([s[0]], s[1..]);
    assert s == [s[0]] + s[1..];
    assert [s[0]][..0] == [];
  }
}
