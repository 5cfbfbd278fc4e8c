/** The body extraction of DomainFilterMessageHandler: a pre-order walk over a
    MIME part tree that keeps the first non-empty plain-text and the first
    non-empty HTML body. jakarta.mail is not part of this model: a part arrives
    already classified by media type, with the outcome of reading its content. */
module Mime {
  import opened Model

  /** How reading a part's content can fail. Only a ClassCastException is
      caught inside extraction; every other exception escapes it. */
  datatype Failure = ClassCast | OtherError

  /** The outcome of getContent() on a text part: a String, an InputStream read
      to the end, or any other object rendered by toString all yield a string. */
  datatype Content = Decoded(s: string) | Failed(failure: Failure)

  datatype Part =
    | TextPlain(content: Content)
    | TextHtml(content: Content)
    /** a multipart type whose content is a Multipart with these body parts */
    | Multipart(children: seq<Part>)
    /** a multipart type whose content is some other object: extraction throws */
    | MultipartNotMultipart
    /** a multipart type whose getContent() itself fails */
    | MultipartFailed(failure: Failure)
    /** any other media type: attachments, images, ... */
    | Other

  /** What a call of extractBodies yields: both bodies, never null, or an
      exception that escapes it. */
  datatype Extracted = Bodies(text: string, html: string) | Thrown

  function ExtractText(c: Content, plain: bool): Extracted
  {
    match c
    case Decoded(s) => if plain then Bodies(s, "") else Bodies("", s)
    case Failed(ClassCast) => Bodies("", "")
    case Failed(OtherError) => Thrown
  }

  /** extractBodies, one part at a time, as the Java method decides it. */
  function Extract(p: Part): Extracted
    decreases p, 1
  {
    match p
    case TextPlain(c) => ExtractText(c, true)
    case TextHtml(c) => ExtractText(c, false)
    case Multipart(children) => Merge(children)
    case MultipartNotMultipart => Thrown
    case MultipartFailed(f) => if f == ClassCast then Bodies("", "") else Thrown
    case Other => Bodies("", "")
  }

  /** The loop over the body parts of a multipart, child by child: the first
      exception escapes, otherwise a body found earlier is never replaced. */
  function Merge(children: seq<Part>): Extracted
    decreases children, 0
  {
    if children == [] then Bodies("", "")
    else
      match Merge(children[..|children| - 1])
      case Thrown => Thrown
      case Bodies(text, html) =>
        match Extract(children[|children| - 1])
        case Thrown => Thrown
        case Bodies(t, h) => Bodies(if text != "" then text else t, if html != "" then html else h)
  }

  /** The reference view: the text (plain = true) or HTML bodies of the tree,
      in depth-first, left-to-right pre-order. */
  function Candidates(p: Part, plain: bool): seq<string>
    decreases p, 1
  {
    match p
    case TextPlain(Decoded(s)) => if plain then [s] else []
    case TextHtml(Decoded(s)) => if plain then [] else [s]
    case Multipart(children) => AllCandidates(children, plain)
    case _ => []
  }

  function AllCandidates(children: seq<Part>, plain: bool): seq<string>
    decreases children, 0
  {
    if children == [] then []
    else AllCandidates(children[..|children| - 1], plain) + Candidates(children[|children| - 1], plain)
  }

  /** Some part the walk reaches fails with an exception other than a
      ClassCastException. */
  predicate Throws(p: Part)
  {
    match p
    case TextPlain(c) => c == Failed(OtherError)
    case TextHtml(c) => c == Failed(OtherError)
    case Multipart(children) => AnyThrows(children)
    case MultipartNotMultipart => true
    case MultipartFailed(f) => f == OtherError
    case Other => false
  }

  predicate AnyThrows(children: seq<Part>)
  {
    exists i :: 0 <= i < |children| && Throws(children[i])
  }

  lemma AnyThrowsSnoc(children: seq<Part>)
    requires children != []
    ensures AnyThrows(children) <==> AnyThrows(children[..|children| - 1]) || Throws(children[|children| - 1])
  {
    var init := children[..|children| - 1];
    if AnyThrows(children) {
      var i :| 0 <= i < |children| && Throws(children[i]);
      if i < |init| {
        assert Throws(init[i]);
      }
    }
    if AnyThrows(init) {
      var i :| 0 <= i < |init| && Throws(init[i]);
      assert children[i] == init[i];
    }
  }

  /** The first non-empty string, or "" if there is none. */
  function FirstNonEmpty(xs: seq<string>): (r: string)
    ensures r != "" <==> exists i :: 0 <= i < |xs| && xs[i] != ""
  {
    if xs == [] then ""
    else if xs[0] != "" then xs[0]
    else FirstNonEmpty(xs[1..])
  }

  /** The chosen body is one of the candidates, and every candidate before
      it is empty: the first non-empty one wins. */
  lemma {:induction false} FirstNonEmptyIsFirst(xs: seq<string>)
    ensures FirstNonEmpty(xs) != "" ==>
              exists i :: 0 <= i < |xs| && xs[i] == FirstNonEmpty(xs) && forall j :: 0 <= j < i ==> xs[j] == ""
  {
    if xs != [] && xs[0] == "" && FirstNonEmpty(xs) != "" {
      var rest := xs[1..];
      FirstNonEmptyIsFirst(rest);
      var i :| 0 <= i < |rest| && rest[i] == FirstNonEmpty(rest) && forall j :: 0 <= j < i ==> rest[j] == "";
      assert xs[i + 1] == rest[i];
      assert forall j :: 1 <= j < i + 1 ==> xs[j] == rest[j - 1];
    }
  }

  lemma {:induction false} FirstNonEmptyAppend(a: seq<string>, b: seq<string>)
    ensures FirstNonEmpty(a + b) == if FirstNonEmpty(a) != "" then FirstNonEmpty(a) else FirstNonEmpty(b)
  {
    if a != [] {
      assert (a + b)[0] == a[0];
      assert (a + b)[1..] == a[1..] + b;
      FirstNonEmptyAppend(a[1..], b);
    } else {
      assert a + b == b;
    }
  }

  /** The first-found-wins merge is the pre-order rule: extraction fails
      exactly when some reached part throws, and otherwise yields the first
      non-empty text and, independently, the first non-empty HTML body in
      pre-order. */
  lemma {:induction false} ExtractIsPreorder(p: Part)
    ensures Extract(p) == if Throws(p) then Thrown
                          else Bodies(FirstNonEmpty(Candidates(p, true)), FirstNonEmpty(Candidates(p, false)))
    decreases p, 1
  {
    match p
    case Multipart(children) => MergeIsPreorder(children);
    case _ =>
  }

  lemma {:induction false} MergeIsPreorder(children: seq<Part>)
    ensures Merge(children) == if AnyThrows(children) then Thrown
                               else Bodies(FirstNonEmpty(AllCandidates(children, true)),
                                           FirstNonEmpty(AllCandidates(children, false)))
    decreases children, 0
  {
    if children != [] {
      var init, last := children[..|children| - 1], children[|children| - 1];
      MergeIsPreorder(init);
      ExtractIsPreorder(last);
      AnyThrowsSnoc(children);
      FirstNonEmptyAppend(AllCandidates(init, true), Candidates(last, true));
      FirstNonEmptyAppend(AllCandidates(init, false), Candidates(last, false));
    }
  }

  /** Once a body part has thrown, the rest of the loop never runs. */
  lemma {:induction false} MergeThrownPrefix(children: seq<Part>, i: nat)
    requires i <= |children| && Merge(children[..i]) == Thrown
    ensures Merge(children) == Thrown
    decreases |children|
  {
    if i < |children| {
      var init := children[..|children| - 1];
      assert init[..i] == children[..i];
      MergeThrownPrefix(init, i);
    } else {
      assert children[..i] == children;
    }
  }

  /** extractBodies: the Java method's text and html locals, null until a
      non-empty body is found, become options. */
  method ExtractBodies(part: Part) returns (r: Extracted)
    ensures r == Extract(part)
    decreases part
  {
    var text: Option<string> := None;
    var html: Option<string> := None;
    match part {
      case TextPlain(c) =>
        match c {
          case Decoded(s) => text := Some(s);
          case Failed(ClassCast) =>
          case Failed(OtherError) => return Thrown;
        }
      case TextHtml(c) =>
        match c {
          case Decoded(s) => html := Some(s);
          case Failed(ClassCast) =>
          case Failed(OtherError) => return Thrown;
        }
      case Multipart(children) =>
        var i := 0;
        while i < |children|
          invariant 0 <= i <= |children|
          invariant Merge(children[..i]) == Bodies(OrEmpty(text), OrEmpty(html))
          invariant text.Some? ==> text.value != ""
          invariant html.Some? ==> html.value != ""
        {
          var bp := ExtractBodies(children[i]);
          assert children[..i + 1][..i] == children[..i];
          if bp.Thrown? {
            MergeThrownPrefix(children, i + 1);
            return Thrown;
          }
          if text.None? && bp.text != "" {
            text := Some(bp.text);
          }
          if html.None? && bp.html != "" {
            html := Some(bp.html);
          }
          i := i + 1;
        }
        assert children[..i] == children;
      case MultipartNotMultipart =>
        return Thrown;
      case MultipartFailed(f) =>
        if f == OtherError {
          return Thrown;
        }
      case Other =>
    }
    r := Bodies(OrEmpty(text), OrEmpty(html));
  }

  /** A part from which extraction yields no body and no exception: an empty
      text part, a part whose content raised a ClassCastException, an
      attachment, or a multipart made only of such parts. */
  predicate Silent(q: Part) {
    Extract(q) == Bodies("", "")
  }

  lemma {:induction false} AllCandidatesConcat(a: seq<Part>, b: seq<Part>, plain: bool)
    ensures AllCandidates(a + b, plain) == AllCandidates(a, plain) + AllCandidates(b, plain)
    decreases |b|
  {
    if b != [] {
      var init := b[..|b| - 1];
      assert (a + b)[..|a + b| - 1] == a + init;
      AllCandidatesConcat(a, init, plain);
    } else {
      assert a + b == a;
    }
  }

  /** Fault isolation: inserting a silent part anywhere among the body parts
      of a multipart does not change what extraction returns. */
  lemma FaultIsolation(children: seq<Part>, i: nat, q: Part)
    requires i <= |children|
    requires Silent(q)
    ensures Extract(Multipart(children[..i] + [q] + children[i..])) == Extract(Multipart(children))
  {
    var extended := children[..i] + [q] + children[i..];
    var front, back := children[..i], children[i..];
    assert children == front + back;
    ExtractIsPreorder(q);
    forall plain: bool
      ensures FirstNonEmpty(AllCandidates(extended, plain)) == FirstNonEmpty(AllCandidates(children, plain))
    {
      var before, inserted, after := AllCandidates(front, plain), Candidates(q, plain), AllCandidates(back, plain);
      AllCandidatesConcat(front + [q], back, plain);
      AllCandidatesConcat(front, [q], plain);
      AllCandidatesConcat(front, back, plain);
      assert [q][..0] == [];
      assert AllCandidates([q], plain) == inserted;
      FirstNonEmptyAppend(before + inserted, after);
      FirstNonEmptyAppend(before, inserted);
      FirstNonEmptyAppend(before, after);
    }
    assert Throws(Multipart(extended)) <==> Throws(Multipart(children)) by {
      forall j | 0 <= j < |extended| && Throws(extended[j])
        ensures exists k :: 0 <= k < |children| && Throws(children[k])
      {
        if j < i {
          assert extended[j] == children[j];
        } else if j > i {
          assert extended[j] == children[j - 1];
        }
      }
      forall k | 0 <= k < |children| && Throws(children[k])
        ensures exists j :: 0 <= j < |extended| && Throws(extended[j])
      {
        if k < i {
          assert extended[k] == children[k];
        } else {
          assert extended[k + 1] == children[k];
        }
      }
    }
    ExtractIsPreorder(Multipart(extended));
    ExtractIsPreorder(Multipart(children));
  }

  /** The parts whose content raised a ClassCastException are silent, and so
      are attachments and empty text parts. */
  lemma ClassCastPartsAreSilent()
    ensures Silent(TextPlain(Failed(ClassCast)))
    ensures Silent(TextHtml(Failed(ClassCast)))
    ensures Silent(MultipartFailed(ClassCast))
    ensures Silent(Other)
    ensures Silent(TextPlain(Decoded(""))) && Silent(TextHtml(Decoded("")))
  {
  }

  /** A plain-text part followed by an HTML part, as in a typical
      multipart/alternative: both bodies are kept. */
  lemma PlainThenHtml(text: string, html: string)
    ensures Extract(Multipart([TextPlain(Decoded(text)), TextHtml(Decoded(html))])) == Bodies(text, html)
  {
    var parts := [TextPlain(Decoded(text)), TextHtml(Decoded(html))];
    assert parts[..1][..0] == [];
    assert Merge(parts[..1]) == Bodies(text, "");
    assert parts[..|parts| - 1] == parts[..1];
    assert Merge(parts) == Bodies(text, html);
  }

  /** Of two non-empty plain-text parts, the first wins. */
  lemma FirstPlainWins(first: string, second: string)
    requires first != ""
    ensures Extract(Multipart([TextPlain(Decoded(first)), TextPlain(Decoded(second))])) == Bodies(first, "")
  {
    var parts := [TextPlain(Decoded(first)), TextPlain(Decoded(second))];
    assert parts[..1][..0] == [];
    assert Merge(parts[..1]) == Bodies(first, "");
    assert parts[..|parts| - 1] == parts[..1];
    assert Merge(parts) == Bodies(first, "");
  }
}
