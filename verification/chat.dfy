/** The reply cleaning of the `/chat` endpoint: markdown emphasis and code
    fences are removed from the model's answer before it is returned. */
module Chat {
  import opened Text

  /** The characters the cleaning may delete. */
  const Markup: set<char> := {'*', '`'}

  /** `reply.replace("**", "").replace("*", "").replace("```", "")`. */
  function CleanReply(reply: string): (r: string)
    ensures '*' !in r
    ensures !Contains(r, "```")
    ensures Without(r, Markup) == Without(reply, Markup)
    ensures multiset(r) <= multiset(reply)
  {
    var a := RemoveAll(reply, "**");
    var b := RemoveAll(a, "*");
    var c := RemoveAll(b, "```");
    RemoveCharAll(a, '*');
    assert '*' !in multiset(b);
    assert '*' !in multiset(c);
    RemoveTripleLeavesNone(b, '`');
    NoTripleNotContains(c, '`');
    RemoveKeepsOthers(reply, "**", Markup);
    RemoveKeepsOthers(a, "*", Markup);
    RemoveKeepsOthers(b, "```", Markup);
    c
  }

  /** Removing `**` before `*` makes no difference: the cleaned reply is the
      reply with every `*` dropped and then the code fences removed. */
  lemma {:induction false} CleanReplyDropsStars(reply: string)
    ensures CleanReply(reply) == RemoveAll(Without(reply, {'*'}), "```")
  {
    var a := RemoveAll(reply, "**");
    RemoveCharIsWithout(a, '*');
    RemoveKeepsOthers(reply, "**", {'*'});
  }

  /** Cleaning a cleaned reply changes nothing. */
  lemma CleanReplyIdempotent(reply: string)
    ensures CleanReply(CleanReply(reply)) == CleanReply(reply)
  {
    var r := CleanReply(reply);
    AbsentCharNotContained(r, '*', "**");
    RemoveAbsent(r, "**");
    AbsentCharNotContained(r, '*', "*");
    RemoveAbsent(r, "*");
    RemoveAbsent(r, "```");
  }

  /** A pattern starting with a character `s` lacks does not occur in `s`. */
  lemma AbsentCharNotContained(s: string, c: char, p: string)
    requires c !in s && |p| > 0 && p[0] == c
    ensures !Contains(s, p)
  {
    forall i | 0 <= i <= |s| - |p|
      ensures !OccursAt(s, p, i)
    {
      assert s[i..i + |p|][0] == s[i];
    }
  }

  /** A reply without markup comes back unchanged. */
  lemma PlainReplyUnchanged(reply: string)
    requires forall k :: 0 <= k < |reply| ==> reply[k] !in Markup
    ensures CleanReply(reply) == reply
  {
    AbsentCharNotContained(reply, '*', "**");
    RemoveAbsent(reply, "**");
    AbsentCharNotContained(reply, '*', "*");
    RemoveAbsent(reply, "*");
    AbsentCharNotContained(reply, '`', "```");
    RemoveAbsent(reply, "```");
  }
}
