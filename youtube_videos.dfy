/** Videos with their comments, and the console listing of a list of
    videos. */
module YouTubeVideos {
  import opened Text

  /** A comment; nothing changes it after construction. */
  datatype Comment = Comment(commentId: string, author: string, text: string, timestamp: string)

  /** Comment.ToString. */
  function CommentString(c: Comment): string
  {
    "Comment(id='" + c.commentId + "', author='" + c.author + "', text='" + c.text + "')"
  }

  /** The comment string leaves the timestamp out. */
  lemma CommentStringShape(c: Comment)
    ensures forall t :: CommentString(c.(timestamp := t)) == CommentString(c)
  {
  }

  /** When ids and authors hold no quote, the comment string names id,
      author and text unambiguously: two comments print alike exactly when
      they agree on all three. */
  lemma CommentStringReadsBack(c: Comment, d: Comment)
    requires '\'' !in c.commentId && '\'' !in c.author
    requires '\'' !in d.commentId && '\'' !in d.author
    ensures CommentString(c) == CommentString(d) <==>
              c.commentId == d.commentId && c.author == d.author && c.text == d.text
  {
    if CommentString(c) == CommentString(d) {
      CommentStringAfterId(c);
      CommentStringAfterId(d);
      CutAtFirst(c.commentId, '\'', AfterId(c.author, c.text), d.commentId, AfterId(d.author, d.text));
      AfterIdAfterAuthor(c.author, c.text);
      AfterIdAfterAuthor(d.author, d.text);
      CutAtFirst(c.author, '\'', AfterAuthor(c.text), d.author, AfterAuthor(d.text));
      assert c.text == AfterAuthor(c.text)[8..|AfterAuthor(c.text)| - 2];
      assert d.text == AfterAuthor(d.text)[8..|AfterAuthor(d.text)| - 2];
    }
  }

  /** The part of a comment string after the id and its closing quote. */
  function AfterId(author: string, text: string): string
  {
    ", author='" + author + "', text='" + text + "')"
  }

  /** The part of a comment string after the author and its closing quote. */
  function AfterAuthor(text: string): string
  {
    ", text='" + text + "')"
  }

  lemma CommentStringAfterId(c: Comment)
    ensures CommentString(c)[12..] == c.commentId + ['\''] + AfterId(c.author, c.text)
  {
    assert CommentString(c) == "Comment(id='" + (c.commentId + ['\''] + AfterId(c.author, c.text));
  }

  lemma AfterIdAfterAuthor(author: string, text: string)
    ensures AfterId(author, text)[10..] == author + ['\''] + AfterAuthor(text)
  {
    assert AfterId(author, text) == ", author='" + (author + ['\''] + AfterAuthor(text));
  }

  /** What the listing shows of a video at the time it is listed. */
  datatype VideoInfo = VideoInfo(title: string, author: string, lengthSeconds: int32, comments: seq<Comment>)

  /** A video; every property has a public setter, and the comment list
      grows in place. */
  class Video {
    var videoId: string
    var title: string
    var author: string
    var lengthSeconds: int32
    var description: string
    var url: string
    var comments: seq<Comment>

    /** A new video holds the given properties and no comment. */
    constructor(videoId: string, title: string, author: string, lengthSeconds: int32, description: string, url: string)
      ensures this.videoId == videoId && this.title == title && this.author == author
      ensures this.lengthSeconds == lengthSeconds && this.description == description && this.url == url
      ensures comments == [] && CommentCount() == 0
    {
      this.videoId := videoId;
      this.title := title;
      this.author := author;
      this.lengthSeconds := lengthSeconds;
      this.description := description;
      this.url := url;
      comments := [];
    }

    /** GetCommentCount. */
    function CommentCount(): (n: nat)
      reads this
    {
      |comments|
    }

    /** `Comments.Add`: the comment goes at the end, the earlier ones stay
        where they were, and nothing else about the video changes. */
    method AddComment(c: Comment)
      modifies this
      ensures comments == old(comments) + [c]
      ensures CommentCount() == old(CommentCount()) + 1
      ensures forall i :: 0 <= i < old(|comments|) ==> comments[i] == old(comments[i])
      ensures videoId == old(videoId) && title == old(title) && author == old(author)
      ensures lengthSeconds == old(lengthSeconds) && description == old(description) && url == old(url)
      ensures ToString() == VideoString(old(videoId), old(title), old(author), old(lengthSeconds), old(CommentCount()) + 1)
      ensures ToString() != old(ToString())
    {
      comments := comments + [c];
      VideoStringTracksCount(videoId, title, author, lengthSeconds, CommentCount(), old(CommentCount()));
    }

    /** Video.ToString. */
    function ToString(): string
      reads this
    {
      VideoString(videoId, title, author, lengthSeconds, CommentCount())
    }

    function Info(): VideoInfo
      reads this
    {
      VideoInfo(title, author, lengthSeconds, comments)
    }
  }

  /** The text of Video.ToString for the given properties and count. */
  function VideoString(id: string, title: string, author: string, lengthSeconds: int32, count: int): string
  {
    "Video(id='" + id + "', title='" + title + "', author='" + author + "', length="
      + IntToString(lengthSeconds) + "s, comments=" + IntToString(count) + ")"
  }

  /** The rendering tells comment counts apart: with the other properties
      fixed, two counts give the same string exactly when they are equal. */
  lemma VideoStringTracksCount(id: string, title: string, author: string, lengthSeconds: int32, count: int, count2: int)
    ensures VideoString(id, title, author, lengthSeconds, count) == VideoString(id, title, author, lengthSeconds, count2)
            <==> count == count2
  {
    var prefix := "Video(id='" + id + "', title='" + title + "', author='" + author + "', length="
                    + IntToString(lengthSeconds) + "s, comments=";
    var a := VideoString(id, title, author, lengthSeconds, count);
    var b := VideoString(id, title, author, lengthSeconds, count2);
    assert a == prefix + IntToString(count) + ")";
    assert b == prefix + IntToString(count2) + ")";
    if a == b {
      assert IntToString(count) == a[|prefix|..|a| - 1] == b[|prefix|..|b| - 1] == IntToString(count2);
    }
    IntToStringInjective(count, count2);
  }

  // ------------------------------------------------------------ the listing

  const Banner: string := "--- Stored Videos and Comments ---"

  /** Twenty-five dashes. */
  const Rule: string := "-------------------------"

  function CommentLine(c: Comment): string
  {
    "    - '" + c.text + "' by " + c.author
  }

  /** The first five lines printed for the video numbered `number`. */
  function Header(number: int, v: VideoInfo): seq<string>
  {
    [ "--- Video #" + IntToString(number) + " ---",
      "Title: " + v.title,
      "Author: " + v.author,
      "Length: " + IntToString(v.lengthSeconds) + " seconds",
      "Number of comments: " + IntToString(|v.comments|) ]
  }

  /** "Comments:" and one line per comment, or nothing without comments. */
  function CommentSection(comments: seq<Comment>): seq<string>
  {
    if |comments| == 0 then [] else ["Comments:"] + Map(CommentLine, comments)
  }

  /** The lines printed for the video numbered `number`. */
  function VideoBlock(number: int, v: VideoInfo): seq<string>
  {
    Header(number, v) + CommentSection(v.comments) + [Rule]
  }

  /** A video's block: its number, its properties and its count, then
      "Comments:" exactly when it has comments, its comments in insertion
      order, and the closing rule. */
  lemma VideoBlockShape(number: int, v: VideoInfo)
    ensures var block := VideoBlock(number, v);
            && |block| == (if |v.comments| == 0 then 6 else 7 + |v.comments|)
            && block[0] == "--- Video #" + IntToString(number) + " ---"
            && block[4] == "Number of comments: " + IntToString(|v.comments|)
            && (("Comments:" in block) <==> |v.comments| > 0)
            && (|v.comments| > 0 ==> block[5] == "Comments:")
            && (forall j :: 0 <= j < |v.comments| ==> block[6 + j] == CommentLine(v.comments[j]))
            && block[|block| - 1] == Rule
  {
    var block := VideoBlock(number, v);
    var header, section := Header(number, v), CommentSection(v.comments);
    assert block == header + section + [Rule];
    HeaderNotCommentsLine(number, v);
    CommentLinesNotCommentsLine(v.comments);
    assert Rule[0] == '-';
    if |v.comments| > 0 {
      assert section == ["Comments:"] + Map(CommentLine, v.comments);
      assert block[5] == section[0];
      forall j | 0 <= j < |v.comments|
        ensures block[6 + j] == CommentLine(v.comments[j])
      {
        assert block[6 + j] == section[1 + j];
      }
    }
  }

  /** No header line reads "Comments:": each starts with another letter. */
  lemma HeaderNotCommentsLine(number: int, v: VideoInfo)
    ensures "Comments:" !in Header(number, v)
  {
    var h := Header(number, v);
    assert h[0][0] == '-' && h[1][0] == 'T' && h[2][0] == 'A' && h[3][0] == 'L' && h[4][0] == 'N';
  }

  /** No comment line reads "Comments:": each starts with a space. */
  lemma CommentLinesNotCommentsLine(comments: seq<Comment>)
    ensures "Comments:" !in Map(CommentLine, comments)
  {
    var lines := Map(CommentLine, comments);
    forall k | 0 <= k < |lines|
      ensures lines[k] != "Comments:"
    {
      assert lines[k][0] == ' ';
    }
  }

  /** The blocks of the videos, numbered from 1 in list order. */
  function VideoBlocks(videos: seq<VideoInfo>): (blocks: seq<seq<string>>)
    ensures |blocks| == |videos|
    ensures forall k :: 0 <= k < |videos| ==> blocks[k] == VideoBlock(k + 1, videos[k])
  {
    seq(|videos|, k requires 0 <= k < |videos| => VideoBlock(k + 1, videos[k]))
  }

  /** The whole listing. */
  function Listing(videos: seq<VideoInfo>): seq<string>
  {
    [Banner] + Concat(VideoBlocks(videos))
  }

  /** Video i of the list (from 0) is shown as block number i + 1, right
      after the banner and the blocks of the videos before it: the listing
      numbers the videos from 1 in list order. */
  lemma ListingShowsVideo(videos: seq<VideoInfo>, i: nat)
    requires i < |videos|
    ensures VideoBlocks(videos)[i] == VideoBlock(i + 1, videos[i])
    ensures 1 + |Concat(VideoBlocks(videos)[..i])| + |VideoBlocks(videos)[i]| <= |Listing(videos)|
    ensures Listing(videos)[1 + |Concat(VideoBlocks(videos)[..i])|..1 + |Concat(VideoBlocks(videos)[..i])| + |VideoBlocks(videos)[i]|]
            == VideoBlocks(videos)[i]
  {
    ShownAfter(Listing(videos), Banner, VideoBlocks(videos), i);
  }

  /** After a first element, part k of a concatenation sits right after
      the parts before it. */
  lemma ShownAfter<T>(all: seq<T>, x: T, parts: seq<seq<T>>, k: nat)
    requires k < |parts| && all == [x] + Concat(parts)
    ensures 1 + |Concat(parts[..k])| + |parts[k]| <= |all|
    ensures all[1 + |Concat(parts[..k])|..1 + |Concat(parts[..k])| + |parts[k]|] == parts[k]
  {
    ConcatShows(parts, k);
    SliceAfter(x, Concat(parts), Concat(parts[..k]), parts[k]);
  }

  /** The concatenation of a sequence of sequences. */
  function Concat<T>(parts: seq<seq<T>>): seq<T>
  {
    if |parts| == 0 then [] else Concat(parts[..|parts| - 1]) + parts[|parts| - 1]
  }

  lemma ConcatSnoc<T>(parts: seq<seq<T>>, k: nat)
    requires k < |parts|
    ensures Concat(parts[..k + 1]) == Concat(parts[..k]) + parts[k]
  {
    assert parts[..k + 1][..k] == parts[..k];
  }

  /** The concatenation of the first parts is a prefix of the whole. */
  lemma {:induction false} ConcatPrefix<T>(parts: seq<seq<T>>, k: nat)
    requires k <= |parts|
    ensures |Concat(parts[..k])| <= |Concat(parts)| && Concat(parts)[..|Concat(parts[..k])|] == Concat(parts[..k])
    decreases |parts| - k
  {
    if k < |parts| {
      ConcatPrefix(parts, k + 1);
      ConcatSnoc(parts, k);
      TakeAppend(Concat(parts[..k]), parts[k], |Concat(parts[..k])|);
      TakePrefix(Concat(parts), |Concat(parts[..k])|, |Concat(parts[..k + 1])|);
    } else {
      assert parts[..k] == parts;
    }
  }

  /** Part k sits right after the parts before it. */
  lemma ConcatShows<T>(parts: seq<seq<T>>, k: nat)
    requires k < |parts|
    ensures |Concat(parts[..k])| + |parts[k]| <= |Concat(parts)|
    ensures Concat(parts)[..|Concat(parts[..k])| + |parts[k]|] == Concat(parts[..k]) + parts[k]
  {
    ConcatPrefix(parts, k + 1);
    ConcatSnoc(parts, k);
  }

  lemma TakeAppend<T>(a: seq<T>, b: seq<T>, k: nat)
    requires k <= |a|
    ensures (a + b)[..k] == a[..k]
  {
  }

  lemma TakePrefix<T>(a: seq<T>, j: nat, k: nat)
    requires j <= k <= |a|
    ensures a[..k][..j] == a[..j]
  {
  }

  /** After a first element, a sequence that starts with a + b holds b
      right after a. */
  lemma SliceAfter<T>(x: T, all: seq<T>, a: seq<T>, b: seq<T>)
    requires |a| + |b| <= |all| && all[..|a| + |b|] == a + b
    ensures 1 + |a| + |b| <= |[x] + all| && ([x] + all)[1 + |a|..1 + |a| + |b|] == b
  {
    assert ([x] + all)[1 + |a|..1 + |a| + |b|] == all[|a|..|a| + |b|];
    assert all[|a|..|a| + |b|] == (a + b)[|a|..];
  }

  /** What the videos show at the time of the listing. */
  function Infos(videos: seq<Video>): (infos: seq<VideoInfo>)
    reads videos
    ensures |infos| == |videos|
    ensures forall k :: 0 <= k < |videos| ==> infos[k] == videos[k].Info()
  {
    seq(|videos|, k requires 0 <= k < |videos| reads videos => videos[k].Info())
  }

  /** The loop of Main that prints every video of `allVideos`. */
  method ListVideos(videos: seq<Video>) returns (lines: seq<string>)
    ensures lines == Listing(Infos(videos))
  {
    ghost var blocks := VideoBlocks(Infos(videos));
    lines := [Banner];
    var i := 0;
    while i < |videos|
      invariant 0 <= i <= |videos|
      invariant lines == [Banner] + Concat(blocks[..i])
    {
      var video := videos[i];
      var section := ListComments(video.comments);
      var block := Header(i + 1, video.Info()) + section + [Rule];
      assert block == blocks[i];
      ConcatSnoc(blocks, i);
      AppendAssoc([Banner], Concat(blocks[..i]), block);
      lines := lines + block;
      i := i + 1;
    }
    assert blocks[..i] == blocks;
  }

  /** The part of the loop body that prints the comments of one video. */
  method ListComments(comments: seq<Comment>) returns (section: seq<string>)
    ensures section == CommentSection(comments)
  {
    section := [];
    if |comments| > 0 {
      section := ["Comments:"];
      var j := 0;
      while j < |comments|
        invariant 0 <= j <= |comments|
        invariant section == ["Comments:"] + Map(CommentLine, comments[..j])
      {
        assert comments[..j + 1] == comments[..j] + [comments[j]];
        MapAppend(CommentLine, comments[..j], [comments[j]]);
        section := section + [CommentLine(comments[j])];
        j := j + 1;
      }
      assert comments[..j] == comments;
    }
  }

  lemma AppendAssoc<T>(a: seq<T>, b: seq<T>, c: seq<T>)
    ensures (a + b) + c == a + (b + c)
  {
  }
}
