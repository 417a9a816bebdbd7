/** The per-reader topic table of the message-bus configuration and its templating helper. */
module Topics {
  import opened Wrappers
  import opened Strings

  /** The six keys of the `topics` table. */
  datatype TopicType = Status | Inventory | Gpos | Operations | Errors | All

  const Placeholder: string := "{reader_id}"
  const DefaultReaderId: string := "reader1"

  /** What follows the placeholder in each template. */
  function Suffix(t: TopicType): (s: string)
    ensures |s| > 0 && s[0] == '/'
  {
    match t
    case Status => "/status"
    case Inventory => "/inventory"
    case Gpos => "/gpos/events"
    case Operations => "/operations"
    case Errors => "/errors"
    case All => "/#"
  }

  /** `topics[t]`: every template is `readers/{reader_id}` followed by its suffix. */
  function Template(t: TopicType): string {
    "readers/" + Placeholder + Suffix(t)
  }

  function ParseTopicType(name: string): (r: Option<TopicType>)
    ensures r.Some? ==> name in {"status", "inventory", "gpos", "operations", "errors", "all"}
  {
    match name
    case "status" => Some(Status)
    case "inventory" => Some(Inventory)
    case "gpos" => Some(Gpos)
    case "operations" => Some(Operations)
    case "errors" => Some(Errors)
    case "all" => Some(All)
    case _ => None
  }

  /**
   * The replacement text `String.prototype.replace` builds from a replacement string when the
   * pattern is a string: `$$`, `$&`, `` $` `` and `$'` are expanded, every other `$` is literal.
   * A replacement without `$` is inserted verbatim.
   */
  function Substitution(repl: string, matched: string, before: string, after: string): (r: string)
    ensures '$' !in repl ==> r == repl
    decreases |repl|
  {
    if |repl| == 0 then ""
    else if repl[0] == '$' && |repl| >= 2 && repl[1] == '$' then "$" + Substitution(repl[2..], matched, before, after)
    else if repl[0] == '$' && |repl| >= 2 && repl[1] == '&' then matched + Substitution(repl[2..], matched, before, after)
    else if repl[0] == '$' && |repl| >= 2 && repl[1] == '`' then before + Substitution(repl[2..], matched, before, after)
    else if repl[0] == '$' && |repl| >= 2 && repl[1] == '\'' then after + Substitution(repl[2..], matched, before, after)
    else
      assert [repl[0]] + repl[1..] == repl;
      [repl[0]] + Substitution(repl[1..], matched, before, after)
  }

  /** `s.replace(pat, repl)` with a string pattern: only the first occurrence is replaced. */
  function ReplaceFirst(s: string, pat: string, repl: string): (r: string)
    ensures IndexOf(s, pat).None? ==> r == s
    ensures '$' !in repl && IndexOf(s, pat).Some? ==>
      var i := IndexOf(s, pat).value; r == s[..i] + repl + s[i + |pat|..]
  {
    match IndexOf(s, pat)
    case None => s
    case Some(i) => s[..i] + Substitution(repl, pat, s[..i], s[i + |pat|..]) + s[i + |pat|..]
  }

  /** The topic of type `t` for reader `readerId`. */
  function TopicFor(t: TopicType, readerId: string): (topic: string)
    ensures '$' !in readerId ==> topic == "readers/" + readerId + Suffix(t)
  {
    var topic := ReplaceFirst(Template(t), Placeholder, readerId);
    assert topic == "readers/" + Substitution(readerId, Placeholder, "readers/", Suffix(t)) + Suffix(t) by {
      IndexOfAfter("readers/", Placeholder, Suffix(t));
      assert Template(t)[..8] == "readers/";
      assert Template(t)[8 + |Placeholder|..] == Suffix(t);
    }
    topic
  }

  /** `getTopic(topicType, readerId = 'reader1')`: throws for a type outside the table. */
  function GetTopic(topicType: string, readerId: Option<string>): (r: Result<string, string>)
    ensures r.Failure? <==> topicType !in {"status", "inventory", "gpos", "operations", "errors", "all"}
    ensures r.Failure? ==> r.error == "Tipo de topic '" + topicType + "' no definido"
    ensures r.Success? ==> r.value == TopicFor(ParseTopicType(topicType).value, readerId.GetOr(DefaultReaderId))
  {
    match ParseTopicType(topicType)
    case None => Failure("Tipo de topic '" + topicType + "' no definido")
    case Some(t) => Success(TopicFor(t, readerId.GetOr(DefaultReaderId)))
  }

  /** The documented examples: status, gpos and the reader-wide wildcard. */
  lemma GetTopicExamples(id: string)
    requires '$' !in id
    ensures GetTopic("status", Some(id)) == Success("readers/" + id + "/status")
    ensures GetTopic("gpos", Some(id)) == Success("readers/" + id + "/gpos/events")
    ensures GetTopic("all", Some(id)) == Success("readers/" + id + "/#")
  {
    assert ParseTopicType("status") == Some(Status);
    assert ParseTopicType("gpos") == Some(Gpos);
    assert ParseTopicType("all") == Some(All);
  }
}
