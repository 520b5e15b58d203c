/** Shell command lines as the scripts build them: words joined by single
    spaces. `Words` reads a line back by splitting on every space, so a command
    whose leading words contain no space gives those words back unchanged. */
module Commands {
  import opened PyText

  predicate IsWord(t: string) {
    ' ' !in t
  }

  predicate AllWords(ts: seq<string>) {
    forall k :: 0 <= k < |ts| ==> IsWord(ts[k])
  }

  /** The command line for an argument vector. */
  function Render(tokens: seq<string>): string {
    JoinWith(" ", tokens)
  }

  /** The space-separated fields of a command line. */
  function Words(cmd: string): seq<string> {
    Split(cmd, ' ')
  }

  /** Rendering and reading back: the leading space-free words of a command are
      exactly its first fields, and the fields after them are those of the rest
      of the line. */
  lemma LeadingWords(head: seq<string>, tail: seq<string>)
    requires |tail| >= 1
    requires AllWords(head)
    ensures Words(Render(head + tail)) == head + Words(Render(tail))
    ensures |Words(Render(head + tail))| >= |head|
    ensures Words(Render(head + tail))[..|head|] == head
  {
    if |head| == 0 {
      assert head + tail == tail;
    } else {
      RenderedAppend(head, tail);
      RenderedWords(head);
    }
    assert (head + Words(Render(tail)))[..|head|] == head;
  }

  /** The fields of two token lists rendered one after the other are the fields
      of each in turn, whatever spaces the tokens hold. */
  lemma RenderedAppend(xs: seq<string>, ys: seq<string>)
    requires |xs| >= 1 && |ys| >= 1
    ensures Words(Render(xs + ys)) == Words(Render(xs)) + Words(Render(ys))
  {
    JoinWithAppend(" ", xs, ys);
    SplitAround(Render(xs), ' ', Render(ys));
  }

  /** A command made only of space-free words reads back as exactly those words. */
  lemma RenderedWords(tokens: seq<string>)
    requires |tokens| >= 1
    requires AllWords(tokens)
    ensures Words(Render(tokens)) == tokens
  {
    SplitJoin(tokens, ' ');
  }
}
