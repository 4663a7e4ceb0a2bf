/** Following an exporting block: its reply names the chain that takes over, and the command is sent
    there, again and again, until a reply is final. */
module Redirects {
  import opened Common
  import opened Text

  predicate Exporting(response: string) {
    |response| >= 10 && response[..10] == "!exporting"
  }

  lemma ExportingExactly(response: string)
    ensures Exporting(response) <==> exists t :: response == "!exporting" + t
  {
    if Exporting(response) {
      assert response == "!exporting" + response[10..];
    }
  }

  /** parts.begin() + 2 on. */
  function Target(response: string): seq<string> {
    var parts := Bounded(Fields(response, '!'), UNLIMITED);
    if |parts| < 2 then [] else parts[2..]
  }

  /** The reply of a block that hands over to the chain of the given names. */
  function ExportReply(names: seq<string>): string
    requires names != []
  {
    "!exporting!" + Join(names, "!")
  }

  lemma ExportShape(t: string)
    ensures "!exporting!" + t == ['!'] + ("exporting" + ['!'] + t)
  {
    assert "!exporting!" == ['!'] + "exporting" + ['!'];
  }

  lemma TwoFields(word: string, t: string, tail: string)
    requires '!' !in word && tail == word + ['!'] + t
    ensures Fields(['!'] + tail, '!') == ["", word] + Fields(t, '!')
  {
    EmptyField('!', tail);
    FirstField(word, '!', t);
    PrependTwo("", word, Fields(t, '!'));
  }

  lemma PrependTwo(a: string, b: string, fs: seq<string>)
    ensures [a] + ([b] + fs) == [a, b] + fs
  {
  }

  lemma ExportFields(t: string)
    ensures Fields("!exporting!" + t, '!') == ["", "exporting"] + Fields(t, '!')
  {
    ExportShape(t);
    TwoFields("exporting", t, "exporting" + ['!'] + t);
  }

  /** The client turns to exactly the chain that was named if and only if no name holds a '!' and the
      last is not empty. */
  lemma RedirectReachesChain(names: seq<string>)
    requires names != [] && |ExportReply(names)| <= UNLIMITED
    ensures Exporting(ExportReply(names))
    ensures Target(ExportReply(names)) == names <==> Free(names, '!') && names[|names| - 1] != ""
  {
    FieldsBound(ExportReply(names), '!');
    ExportFields(Join(names, "!"));
    SplitInvertsJoin(names, '!');
  }

  /** One command sent on: to which chain, with which arguments. */
  datatype Ask = Ask(chain: seq<string>, args: seq<string>)

  /** The chain asked k-th is the one named by the reply before. */
  function Named(response: string, answers: seq<string>, k: nat): string
    requires k <= |answers|
  {
    if k == 0 then response else answers[k - 1]
  }

  /** The requests for one command, when answers is what the chains asked in turn reply. */
  function Asks(response: string, answers: seq<string>, args: seq<string>): (asked: seq<Ask>)
    ensures |asked| == |answers|
  {
    seq(|answers|, k requires 0 <= k < |answers| => Ask(Target(Named(response, answers, k)), args + ["!redirected"]))
  }

  /** One more request goes to the chain named last. */
  lemma AsksSnoc(response: string, answers: seq<string>, next: string, args: seq<string>)
    ensures Asks(response, answers + [next], args)
         == Asks(response, answers, args) + [Ask(Target(Named(response, answers, |answers|)), args + ["!redirected"])]
  {
    forall k: nat | k <= |answers| ensures Named(response, answers + [next], k) == Named(response, answers, k) {
    }
  }
}
