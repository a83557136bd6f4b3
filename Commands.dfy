/** The command processor `process_command`: from a chat message, its sender's
    nickname and the nicknames currently online, the text to broadcast and its
    kind. Nothing here reads or changes state. */
module Commands {
  import opened Text

  /** The `type` field of a response; the datatype admits no other value. */
  datatype Kind = Normal | AiResponse | MovieLink | System | Mention

  datatype Response = Response(message: string, kind: Kind)

  const Sigil: char := '@'
  /** The assistant's trigger, sigil included. */
  const AiTrigger: string := "@奶小胖"
  /** The movie-link trigger, sigil included. */
  const MovieTrigger: string := "@电影"
  /** The external resolver that the movie target is appended to, unvalidated. */
  const ResolverPrefix: string := "https://jx.m3u8.tv/jiexi/?url="
  const MissingUrlNotice: string := "请提供有效的电影URL地址"
  const IframeOpen: string := "<iframe class=\"movie-iframe\" src=\""
  const IframeClose: string := "\" width=\"400\" height=\"400\" frameborder=\"0\" allowfullscreen></iframe>"

  /** The canned answer of the assistant stub, greeting the sender. */
  function AiReply(nickname: string): string {
    "[AI回复] 你好" + nickname + "，我是奶小胖！很高兴为你服务。"
  }

  /** The 400x400 iframe that plays `target` through the resolver. */
  function MovieEmbed(target: string): string {
    IframeOpen + ResolverPrefix + target + IframeClose
  }

  /** `process_command`. Only a message that starts with the sigil can become
      anything but normal text, and each kind carries its own fixed text. */
  function ProcessCommand(message: string, nickname: string, online: seq<string>): (r: Response)
    ensures r.kind != Normal ==> |message| > 0 && message[0] == Sigil
    ensures r.kind == Normal ==> r.message == message
    ensures r.kind == AiResponse ==> r.message == AiReply(nickname)
    ensures r.kind == System ==> r.message == MissingUrlNotice
    ensures r.kind == MovieLink ==> exists target :: target != [] && r.message == MovieEmbed(target)
    ensures r.kind == Mention ==> exists target :: target in online && IsLowerCase(target) && |target| + 1 < |r.message| && r.message[..|target| + 2] == "@" + target + " "
  {
    if |message| > 0 && message[0] == Sigil then
      var parts := SplitOnce(message, ' ');
      var command := Lower(parts[0]);
      var content := if |parts| > 1 then parts[1] else "";
      if command == AiTrigger then
        Response(AiReply(nickname), AiResponse)
      else if command == MovieTrigger then
        if Strip(content) != "" then
          Response(MovieEmbed(Strip(content)), MovieLink)
        else
          Response(MissingUrlNotice, System)
      else if command[1..] in online then
        Response("@" + command[1..] + " " + content, Mention)
      else
        Response(message, Normal)
    else
      Response(message, Normal)
  }

  /** `message` is the command token `cmd` (the sigil, then no space), followed
      either by one space and `content`, or by nothing with `content` empty. */
  predicate CommandShape(message: string, cmd: string, content: string) {
    && |cmd| > 0 && cmd[0] == Sigil && ' ' !in cmd
    && (message == cmd + " " + content || (message == cmd && content == ""))
  }

  /** A message that starts with the sigil splits into exactly one such shape. */
  lemma {:induction false} CommandShapeOfSplit(message: string, cmd: string, content: string)
    requires CommandShape(message, cmd, content)
    ensures |message| > 0 && message[0] == Sigil
    ensures SplitOnce(message, ' ')[0] == cmd
    ensures (if |SplitOnce(message, ' ')| > 1 then SplitOnce(message, ' ')[1] else "") == content
  {
    if message == cmd + " " + content {
      SplitOnceAtFirst(cmd, ' ', content);
    } else {
      SplitOnceWithoutSeparator(cmd, ' ');
    }
  }

  /** Every message that starts with the sigil has a command shape, so the
      branch lemmas below between them cover every command. */
  lemma EveryCommandHasAShape(message: string)
    requires |message| > 0 && message[0] == Sigil
    ensures exists cmd, content :: CommandShape(message, cmd, content)
  {
    var parts := SplitOnce(message, ' ');
    var content := if |parts| > 1 then parts[1] else "";
    assert CommandShape(message, parts[0], content);
  }

  /** Text that does not start with the sigil is passed on unchanged as normal text. */
  lemma PlainTextIsNormal(message: string, nickname: string, online: seq<string>)
    requires |message| == 0 || message[0] != Sigil
    ensures ProcessCommand(message, nickname, online) == Response(message, Normal)
  {
  }

  /** The assistant trigger answers with the canned greeting, whatever follows it
      and even when a user of that name is online. */
  lemma AiTriggerAnswers(message: string, cmd: string, content: string, nickname: string, online: seq<string>)
    requires CommandShape(message, cmd, content)
    requires Lower(cmd) == AiTrigger
    ensures ProcessCommand(message, nickname, online) == Response(AiReply(nickname), AiResponse)
  {
    CommandShapeOfSplit(message, cmd, content);
  }

  /** The movie trigger with a target embeds the stripped target in the resolver URL. */
  lemma MovieTriggerEmbedsTarget(message: string, cmd: string, content: string, nickname: string, online: seq<string>)
    requires CommandShape(message, cmd, content)
    requires Lower(cmd) == MovieTrigger
    requires !IsBlank(content)
    ensures Strip(content) != []
    ensures ProcessCommand(message, nickname, online) == Response(MovieEmbed(Strip(content)), MovieLink)
  {
    CommandShapeOfSplit(message, cmd, content);
  }

  /** The movie trigger with no target, or only whitespace, yields the system notice. */
  lemma MovieTriggerNeedsTarget(message: string, cmd: string, content: string, nickname: string, online: seq<string>)
    requires CommandShape(message, cmd, content)
    requires Lower(cmd) == MovieTrigger
    requires IsBlank(content)
    ensures ProcessCommand(message, nickname, online) == Response(MissingUrlNotice, System)
  {
    CommandShapeOfSplit(message, cmd, content);
  }

  /** A lower-cased token naming an online user, and no trigger, is a mention that
      rebuilds the text from the lower-cased name and the untrimmed content. */
  lemma MentionOfOnlineUser(message: string, cmd: string, content: string, nickname: string, online: seq<string>)
    requires CommandShape(message, cmd, content)
    requires Lower(cmd) != AiTrigger && Lower(cmd) != MovieTrigger
    requires Lower(cmd)[1..] in online
    ensures ProcessCommand(message, nickname, online) == Response("@" + Lower(cmd)[1..] + " " + content, Mention)
  {
    CommandShapeOfSplit(message, cmd, content);
  }

  /** Any other command token is passed on unchanged as normal text. */
  lemma UnknownCommandIsNormal(message: string, cmd: string, content: string, nickname: string, online: seq<string>)
    requires CommandShape(message, cmd, content)
    requires Lower(cmd) != AiTrigger && Lower(cmd) != MovieTrigger
    requires Lower(cmd)[1..] !in online
    ensures ProcessCommand(message, nickname, online) == Response(message, Normal)
  {
    CommandShapeOfSplit(message, cmd, content);
  }

  /** The lookup uses the lower-cased token, so a nickname holding an upper-case
      letter can never be mentioned: with only such users online no message
      is a mention. */
  lemma MixedCaseNicknamesAreNeverMentioned(message: string, nickname: string, online: seq<string>)
    requires forall n :: n in online ==> !IsLowerCase(n)
    ensures ProcessCommand(message, nickname, online).kind != Mention
  {
    if |message| > 0 && message[0] == Sigil {
      var parts := SplitOnce(message, ' ');
      if |parts[0]| > 0 {
        var command := Lower(parts[0]);
        assert IsLowerCase(command[1..]);
      }
    }
  }

  /** Different targets give different embeds: the target can be read back
      from between the resolver prefix and the iframe's closing text. */
  lemma {:induction false} MovieEmbedDeterminesTarget(target: string, other: string)
    requires MovieEmbed(target) == MovieEmbed(other)
    ensures target == other
  {
    var n := |IframeOpen + ResolverPrefix|;
    assert |target| == |other|;
    assert MovieEmbed(target)[n..n + |target|] == target;
    assert MovieEmbed(other)[n..n + |other|] == other;
  }

  /** "@Bob hey" with Bob online is not a mention: the token becomes "@bob". */
  lemma CapitalisedMentionExample()
    ensures ProcessCommand("@Bob hey", "Alice", ["Bob"]) == Response("@Bob hey", Normal)
  {
    var cmd := "@Bob";
    assert Lower(cmd)[1] == 'b';
    assert Lower(cmd) != AiTrigger && Lower(cmd) != MovieTrigger;
    assert "@Bob hey" == cmd + " " + "hey";
    UnknownCommandIsNormal("@Bob hey", cmd, "hey", "Alice", ["Bob"]);
  }

  /** "@奶小胖 hi" is answered by the assistant stub. */
  lemma AiExample()
    ensures ProcessCommand("@奶小胖 hi", "Alice", []) == Response(AiReply("Alice"), AiResponse)
  {
    LowerFixesExactlyLowerCase(AiTrigger);
    assert "@奶小胖 hi" == AiTrigger + " " + "hi";
    AiTriggerAnswers("@奶小胖 hi", AiTrigger, "hi", "Alice", []);
  }

  /** "@电影 " has no target after stripping and draws the notice. */
  lemma MovieWithoutTargetExample()
    ensures ProcessCommand("@电影 ", "Alice", []) == Response(MissingUrlNotice, System)
  {
    LowerFixesExactlyLowerCase(MovieTrigger);
    assert "@电影 " == MovieTrigger + " " + "";
    MovieTriggerNeedsTarget("@电影 ", MovieTrigger, "", "Alice", []);
  }

  /** "@电影 abc123" embeds "abc123". */
  lemma MovieWithTargetExample()
    ensures ProcessCommand("@电影 abc123", "Alice", []) == Response(MovieEmbed("abc123"), MovieLink)
  {
    var target := "abc123";
    LowerFixesExactlyLowerCase(MovieTrigger);
    assert "@电影 abc123" == MovieTrigger + " " + target;
    assert !IsSpace(target[0]) && !IsSpace(target[5]);
    MovieTriggerEmbedsTarget("@电影 abc123", MovieTrigger, target, "Alice", []);
  }

  /** "@电影" followed by an ideographic space, the space of Chinese input
      methods, has no target once stripped and draws the notice. */
  lemma IdeographicSpaceExample()
    ensures ProcessCommand("@电影 \U{3000}", "Alice", []) == Response(MissingUrlNotice, System)
  {
    var content := "\U{3000}";
    LowerFixesExactlyLowerCase(MovieTrigger);
    assert "@电影 \U{3000}" == MovieTrigger + " " + content;
    assert IsBlank(content);
    MovieTriggerNeedsTarget("@电影 \U{3000}", MovieTrigger, content, "Alice", []);
  }
}
