/** The TypeScript server's synchronisation: the set of open WebSocket
    clients, the `/goto/:slide` route, and the client script it serves. */
module TsServer {
  import opened Wrappers
  import Decimal

  /** `pat` occurs in `s` at index `i`. */
  predicate OccursAt(s: string, pat: string, i: nat) {
    i + |pat| <= |s| && s[i..i + |pat|] == pat
  }

  /** The first index at or after `from` where `pat` occurs in `s`. */
  function FindFrom(s: string, pat: string, from: nat): (r: Option<nat>)
    ensures r.Some? ==> from <= r.value && OccursAt(s, pat, r.value)
    ensures r.Some? ==> forall j :: from <= j < r.value ==> !OccursAt(s, pat, j)
    ensures r.None? ==> forall j :: from <= j ==> !OccursAt(s, pat, j)
    decreases |s| - from
  {
    if from + |pat| > |s| then None
    else if s[from..from + |pat|] == pat then Some(from)
    else FindFrom(s, pat, from + 1)
  }

  /** `s.replace(pat, rep)` with a string pattern and a replacement without `$`
      patterns: the first occurrence only, if any. */
  function ReplaceFirst(s: string, pat: string, rep: string): (r: string)
    ensures FindFrom(s, pat, 0).None? ==> r == s
    ensures FindFrom(s, pat, 0).Some? ==>
      var i := FindFrom(s, pat, 0).value;
      s == s[..i] + pat + s[i + |pat|..] && r == s[..i] + rep + s[i + |pat|..]
  {
    match FindFrom(s, pat, 0)
    case None => s
    case Some(i) => s[..i] + rep + s[i + |pat|..]
  }

  /** The first occurrence is found where it is. */
  lemma FirstOccurrence(pre: string, pat: string, post: string)
    requires forall j :: 0 <= j < |pre| ==> !OccursAt(pre + pat + post, pat, j)
    ensures FindFrom(pre + pat + post, pat, 0) == Some(|pre|)
  {
    var s := pre + pat + post;
    assert s[|pre|..|pre| + |pat|] == pat;
    assert OccursAt(s, pat, |pre|);
  }

  /** The served script: with control on, the first `LENGTH` becomes the last
      slide's index and `()` is appended, which calls the arrow function that
      installs the arrow-key handler; with control off it becomes `0` and
      nothing is appended. The schema guarantees at least one slide. */
  function Script(source: string, control: bool, slideCount: nat): (r: string)
    requires slideCount >= 1
    ensures control ==> |r| >= 2 && r[|r| - 2..] == "()"
    ensures !control && FindFrom(source, "LENGTH", 0).None? ==> r == source
    ensures FindFrom(source, "LENGTH", 0).Some? ==>
      var i := FindFrom(source, "LENGTH", 0).value;
      i < |r| && r[..i] == source[..i] && r[i] == (if control then Decimal.Show(slideCount - 1)[0] else '0')
  {
    if control then ReplaceFirst(source, "LENGTH", Decimal.Show(slideCount - 1)) + "()"
    else ReplaceFirst(source, "LENGTH", "0")
  }

  /** On a script with `LENGTH` in it, only its first occurrence changes. */
  lemma ScriptSubstitutes(pre: string, post: string, control: bool, slideCount: nat)
    requires slideCount >= 1
    requires forall j :: 0 <= j < |pre| ==> !OccursAt(pre + "LENGTH" + post, "LENGTH", j)
    ensures control ==> Script(pre + "LENGTH" + post, control, slideCount) == pre + Decimal.Show(slideCount - 1) + post + "()"
    ensures !control ==> Script(pre + "LENGTH" + post, control, slideCount) == pre + "0" + post
  {
    var s := pre + "LENGTH" + post;
    FirstOccurrence(pre, "LENGTH", post);
    assert s[..|pre|] == pre;
    assert s[|pre| + 6..] == post;
  }

  /** A script without `LENGTH` is served as it is, with `()` appended when
      control is on. */
  lemma ScriptWithoutPlaceholder(source: string, control: bool, slideCount: nat)
    requires slideCount >= 1
    requires forall j :: 0 <= j ==> !OccursAt(source, "LENGTH", j)
    ensures Script(source, control, slideCount) == if control then source + "()" else source
  {
    if FindFrom(source, "LENGTH", 0).Some? {
      assert false;
    }
  }

  /** The reply of `/goto/:slide`. */
  datatype Reply = OkPage | Unauthorized | InvalidParams

  /** Parameter validation first (the slide must lie in 0 ..  slides.length - 1),
      then `pass === config.password`, where either side may be absent. */
  function GotoReply(slide: int, pass: Option<string>, configured: Option<string>, slideCount: nat): (r: Reply)
    ensures r == InvalidParams <==> !(0 <= slide < slideCount)
    ensures r == OkPage <==> 0 <= slide < slideCount && pass == configured
  {
    if !(0 <= slide < slideCount) then InvalidParams
    else if pass == configured then OkPage
    else Unauthorized
  }

  /** Without a configured password only a request with no `pass` at all gets
      through; an empty `pass` is refused. */
  lemma UnsetPasswordAdmitsOnlyAbsentPass(slide: int, pass: Option<string>, slideCount: nat)
    requires 0 <= slide < slideCount
    ensures GotoReply(slide, pass, None, slideCount) == OkPage <==> pass.None?
    ensures GotoReply(slide, Some(""), None, slideCount) == Unauthorized
  {
  }

  /** A client's WebSocket, with everything sent to it. */
  class Client {
    var inbox: seq<string>

    constructor ()
      ensures inbox == []
    {
      inbox := [];
    }

    method Send(message: string)
      modifies this
      ensures inbox == old(inbox) + [message]
    {
      inbox := inbox + [message];
    }
  }



  /** The server: the configured password and slide count, and the `clients` set. */
  class Presentation {
    const password: Option<string>
    const slideCount: nat
    var clients: set<Client>

    constructor (password: Option<string>, slideCount: nat)
      ensures this.password == password && this.slideCount == slideCount && clients == {}
    {
      this.password := password;
      this.slideCount := slideCount;
      clients := {};
    }

    /** `open(ws)`: `clients.add(ws)`; adding a present client changes nothing. */
    method Open(ws: Client)
      modifies this
      ensures clients == old(clients) + {ws}
    {
      clients := clients + {ws};
    }

    /** `close(ws)`: `clients.delete(ws)`; deleting an absent client changes nothing. */
    method Close(ws: Client)
      modifies this
      ensures clients == old(clients) - {ws}
    {
      clients := clients - {ws};
    }

    /** `/goto/:slide`: when accepted, every client in the set is sent
      `JSON.stringify(slide)` once; otherwise nothing is sent. */
    method Goto(slide: int, pass: Option<string>) returns (r: Reply)
      modifies clients
      ensures r == GotoReply(slide, pass, password, slideCount)
      ensures forall c :: c in clients ==>
        c.inbox == if r == OkPage then old(c.inbox) + [Decimal.Show(slide)] else old(c.inbox)
    {
      r := GotoReply(slide, pass, password, slideCount);
      if r != OkPage {
        return;
      }
      var message := Decimal.Show(slide);
      var pending := clients;
      while pending != {}
        invariant pending <= clients
        invariant forall c :: c in clients && c !in pending ==> c.inbox == old(c.inbox) + [message]
        invariant forall c :: c in pending ==> c.inbox == old(c.inbox)
        decreases pending
      {
        HasMember(pending);
        var c :| c in pending;
        c.Send(message);
        pending := pending - {c};
      }
    }
  }

  /** Opening a client twice and closing it once leaves it out of the set, so a
      later navigation does not reach it. */
  method ReopenThenClose(slideCount: nat) returns (p: Presentation, a: Client, b: Client, r: Reply)
    requires slideCount >= 1
    ensures r == OkPage && a.inbox == [] && b.inbox == ["0"]
  {
    p := new Presentation(None, slideCount);
    a := new Client();
    b := new Client();
    p.Open(a);
    p.Open(a);
    p.Open(b);
    p.Close(a);
    r := p.Goto(0, None);
  }
}
