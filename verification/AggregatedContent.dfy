/** Owners and urls of aggregated messages: three modules join them into text and split
    them back. The results say exactly when nothing is lost on the way. */
module AggregatedContent {
  import opened Text
  import opened Aggregator

  const APPLICATION_SCOPE_OWNER := "<%application_scope_owner%>"
  const TOO_LONG := "This message is too long to display here. Please visit the link to read the content."

  /** A missing property reads as the empty text. */
  function Get(scan: Scan, property: string): string {
    if property in scan then scan[property] else ""
  }

  function Values(scans: seq<Scan>, property: string): seq<string> {
    seq(|scans|, i requires 0 <= i < |scans| => Get(scans[i], property))
  }

  // ---------- One message ----------

  /** `MsgHandling` joins the owners of the input and attaches them unless the text is empty. */
  function WithOwners(content: Scan, owners: seq<string>): Scan {
    var text := Join(owners, ";");
    if text != "" then content["owners" := text] else content
  }

  function OwnerLines(lists: seq<seq<string>>): seq<string> {
    seq(|lists|, i requires 0 <= i < |lists| => Join(lists[i], ";"))
  }

  /** The messages of a batch, each with its owners attached. */
  function Attributed(contents: seq<Scan>, lists: seq<seq<string>>): seq<Scan>
    requires |contents| == |lists|
  {
    seq(|contents|, i requires 0 <= i < |contents| => WithOwners(contents[i], lists[i]))
  }

  // ---------- A batch ----------

  function Descriptions(scans: seq<Scan>, titleH1: string -> string): string {
    if scans == [] then "" else
      var last := scans[|scans| - 1];
      Descriptions(scans[..|scans| - 1], titleH1) + titleH1(Get(last, "title")) + Get(last, "description")
  }

  /** A newline goes before a url only if something was written before it. */
  function UrlText(urls: seq<string>): string {
    if urls == [] then "" else
      var before := UrlText(urls[..|urls| - 1]);
      (if before != "" then before + "\n" else before) + urls[|urls| - 1]
  }

  function Urls(scans: seq<Scan>): seq<string> {
    Values(scans, "url")
  }

  function OwnerTexts(scans: seq<Scan>): seq<string> {
    NonEmptyTexts(Values(scans, "owners"))
  }

  function Aggregated(scans: seq<Scan>, titleH1: string -> string): Scan {
    var r := map["title" := "Vulnerability scan report",
                 "description" := Descriptions(scans, titleH1),
                 "url" := UrlText(Urls(scans))];
    if OwnerTexts(scans) != [] then r["owners" := Join(OwnerTexts(scans), ";")] else r
  }

  lemma {:induction false} SomeOwnerText(scans: seq<Scan>)
    ensures OwnerTexts(scans) != [] <==> exists i | 0 <= i < |scans| :: "owners" in scans[i] && scans[i]["owners"] != ""
  {
    if scans != [] {
      var n := |scans| - 1;
      SomeOwnerText(scans[..n]);
      assert Values(scans, "owners")[..n] == Values(scans[..n], "owners");
      assert Values(scans, "owners")[n] == Get(scans[n], "owners");
      if i :| 0 <= i < |scans| && "owners" in scans[i] && scans[i]["owners"] != "" {
        assert i < n ==> scans[..n][i] == scans[i];
      }
      if OwnerTexts(scans[..n]) != [] {
        var i :| 0 <= i < n && "owners" in scans[..n][i] && scans[..n][i]["owners"] != "";
        assert scans[i] == scans[..n][i];
      }
    }
  }

  /** A scan's share of the description: its title as a heading, then its text. */
  function Piece(scan: Scan, titleH1: string -> string): string {
    titleH1(if "title" in scan then scan["title"] else "")
    + (if "description" in scan then scan["description"] else "")
  }

  function Pieces(scans: seq<Scan>, titleH1: string -> string): seq<string> {
    seq(|scans|, i requires 0 <= i < |scans| => Piece(scans[i], titleH1))
  }

  lemma {:induction false} DescriptionsAreFlat(scans: seq<Scan>, titleH1: string -> string)
    ensures Descriptions(scans, titleH1) == Flatten(Pieces(scans, titleH1))
  {
    if scans != [] {
      var n := |scans| - 1;
      DescriptionsAreFlat(scans[..n], titleH1);
      assert Pieces(scans, titleH1) == Pieces(scans[..n], titleH1) + [Piece(scans[n], titleH1)];
      FlattenSnoc(Pieces(scans[..n], titleH1), Piece(scans[n], titleH1));
    }
  }

  lemma AggregatedReads(scans: seq<Scan>, titleH1: string -> string)
    ensures var r := Aggregated(scans, titleH1);
            && {"title", "description", "url"} <= r.Keys <= {"title", "description", "url", "owners"}
            && r["title"] == "Vulnerability scan report"
            && r["description"] == Flatten(Pieces(scans, titleH1))
            && ("owners" in r <==> exists i | 0 <= i < |scans| :: "owners" in scans[i] && scans[i]["owners"] != "")
  {
    DescriptionsAreFlat(scans, titleH1);
    SomeOwnerText(scans);
  }

  method BuildAggregatedContent(scans: seq<Scan>, titleH1: string -> string) returns (r: Scan)
    ensures r == Aggregated(scans, titleH1)
    ensures {"title", "description", "url"} <= r.Keys <= {"title", "description", "url", "owners"}
    ensures r["title"] == "Vulnerability scan report"
    ensures r["description"] == Flatten(Pieces(scans, titleH1))
    ensures "owners" in r <==> exists i | 0 <= i < |scans| :: "owners" in scans[i] && scans[i]["owners"] != ""
  {
    var descr, urls, owners := "", "", [];
    for i := 0 to |scans|
      invariant descr == Descriptions(scans[..i], titleH1)
      invariant urls == UrlText(Urls(scans[..i]))
      invariant owners == OwnerTexts(scans[..i])
    {
      var scan := scans[i];
      assert scans[..i + 1][..i] == scans[..i];
      assert Urls(scans[..i + 1])[..i] == Urls(scans[..i]);
      assert Values(scans[..i + 1], "owners")[..i] == Values(scans[..i], "owners");
      descr := descr + titleH1(Get(scan, "title"));
      descr := descr + Get(scan, "description");
      if urls != "" {
        urls := urls + "\n";
      }
      urls := urls + Get(scan, "url");
      if Get(scan, "owners") != "" {
        owners := owners + [Get(scan, "owners")];
      }
    }
    assert scans[..|scans|] == scans;
    r := map["title" := "Vulnerability scan report", "description" := descr, "url" := urls];
    if |owners| > 0 {
      r := r["owners" := Join(owners, ";")];
    }
    AggregatedReads(scans, titleH1);
  }

  // ---------- Recipients ----------

  /** The owners an output finds in a message; without the property there are none. */
  function OwnersOf(content: Scan): seq<string> {
    if "owners" in content then Split(content["owners"], ';') else []
  }

  function Expand(recipients: seq<string>, owners: seq<string>): seq<string> {
    if recipients == [] then [] else
      var last := recipients[|recipients| - 1];
      Expand(recipients[..|recipients| - 1], owners) + (if last == APPLICATION_SCOPE_OWNER then owners else [last])
  }

  /** Recipient by recipient: the owners for the placeholder, and anyone else as they are. */
  function Replaced(recipients: seq<string>, owners: seq<string>): seq<seq<string>> {
    seq(|recipients|, i requires 0 <= i < |recipients| =>
      if recipients[i] == "<%application_scope_owner%>" then owners else [recipients[i]])
  }

  lemma {:induction false} ExpandIsFlat(recipients: seq<string>, owners: seq<string>)
    ensures Expand(recipients, owners) == Flatten(Replaced(recipients, owners))
  {
    if recipients != [] {
      var n := |recipients| - 1;
      ExpandIsFlat(recipients[..n], owners);
      var last := if recipients[n] == "<%application_scope_owner%>" then owners else [recipients[n]];
      FlattenSnoc(Replaced(recipients[..n], owners), last);
      assert Replaced(recipients, owners) == Replaced(recipients[..n], owners) + [last];
    }
  }

  /** Without the placeholder all recipients stay. */
  lemma NothingReplaced(recipients: seq<string>, owners: seq<string>)
    requires "<%application_scope_owner%>" !in recipients
    ensures Flatten(Replaced(recipients, owners)) == recipients
  {
    assert Replaced(recipients, owners) == seq(|recipients|, i requires 0 <= i < |recipients| => [recipients[i]]);
    FlattenSingletons(recipients);
  }

  method GetHandledRecipients(recipients: seq<string>, content: Scan) returns (result: seq<string>)
    ensures result == Expand(recipients, OwnersOf(content))
    ensures result
         == Flatten(seq(|recipients|, i requires 0 <= i < |recipients| =>
                      if recipients[i] != "<%application_scope_owner%>" then [recipients[i]]
                      else if "owners" in content then Split(content["owners"], ';') else []))
    ensures "<%application_scope_owner%>" !in recipients ==> result == recipients
  {
    ExpandIsFlat(recipients, OwnersOf(content));
    if "<%application_scope_owner%>" !in recipients {
      NothingReplaced(recipients, OwnersOf(content));
    }
    assert Replaced(recipients, OwnersOf(content))
        == seq(|recipients|, i requires 0 <= i < |recipients| =>
             if recipients[i] != "<%application_scope_owner%>" then [recipients[i]]
             else if "owners" in content then Split(content["owners"], ';') else []);
    result := [];
    for i := 0 to |recipients|
      invariant result == Expand(recipients[..i], OwnersOf(content))
    {
      assert recipients[..i + 1][..i] == recipients[..i];
      if recipients[i] == APPLICATION_SCOPE_OWNER {
        if "owners" in content {
          result := result + Split(content["owners"], ';');
        }
      } else {
        result := result + [recipients[i]];
      }
    }
    assert recipients[..|recipients|] == recipients;
  }

  /** What one message contributes to the owners of its batch. */
  function Contribution(owners: seq<string>): seq<string> {
    var text := Join(owners, ";");
    if text == "" then [] else Split(text, ';')
  }

  /** An owner list that survives: no ';' inside an owner, and not one nameless owner alone. */
  predicate Faithful(owners: seq<string>) {
    Free(owners, ';') && owners != [""]
  }

  lemma ContributionExact(owners: seq<string>)
    ensures Contribution(owners) == owners <==> Faithful(owners)
    ensures Free(owners, ';') && !Faithful(owners) ==> Contribution(owners) == []
    ensures Free(Contribution(owners), ';')
  {
    SplitUndoesJoin(owners, ';');
    SplitPartsAreFree(Join(owners, ";"), ';');
  }

  function Contributions(lists: seq<seq<string>>): seq<string> {
    if lists == [] then [] else Contributions(lists[..|lists| - 1]) + Contribution(lists[|lists| - 1])
  }

  function Concatenated(lists: seq<seq<string>>): seq<string> {
    if lists == [] then [] else Concatenated(lists[..|lists| - 1]) + lists[|lists| - 1]
  }

  function SplitOwners(texts: seq<string>): seq<string> {
    if texts == [] then [] else Split(Join(texts, ";"), ';')
  }

  lemma SplitOneMore(texts: seq<string>, text: string)
    requires text != ""
    ensures SplitOwners(texts + [text]) == SplitOwners(texts) + Split(text, ';')
  {
    if texts == [] {
      assert texts + [text] == [text];
    } else {
      JoinSnoc(texts, text, ";");
      SplitAtSeparator(Join(texts, ";"), text, ';');
    }
  }

  /** The joined text of a batch splits into the contributions of its messages, in order. */
  lemma {:induction false} JoinedOwnersSplit(lists: seq<seq<string>>)
    ensures SplitOwners(NonEmptyTexts(OwnerLines(lists))) == Contributions(lists)
  {
    if lists != [] {
      var before, text := lists[..|lists| - 1], Join(lists[|lists| - 1], ";");
      JoinedOwnersSplit(before);
      assert OwnerLines(lists)[..|lists| - 1] == OwnerLines(before);
      var texts := NonEmptyTexts(OwnerLines(before));
      if text != "" {
        SplitOneMore(texts, text);
      } else {
        assert texts + [] == texts;
      }
    }
  }

  lemma {:induction false} FaithfulContributions(lists: seq<seq<string>>)
    requires forall i | 0 <= i < |lists| :: Faithful(lists[i])
    ensures Contributions(lists) == Concatenated(lists)
  {
    if lists != [] {
      FaithfulContributions(lists[..|lists| - 1]);
      ContributionExact(lists[|lists| - 1]);
    }
  }

  lemma {:induction false} ContributionsAreFree(lists: seq<seq<string>>)
    ensures Free(Contributions(lists), ';')
  {
    if lists != [] {
      ContributionsAreFree(lists[..|lists| - 1]);
      ContributionExact(lists[|lists| - 1]);
    }
  }

  lemma {:induction false} PartsOfFreeAreFree(lists: seq<seq<string>>, i: nat)
    requires Free(Concatenated(lists), ';') && i < |lists|
    ensures Free(lists[i], ';')
  {
    var before, last := lists[..|lists| - 1], lists[|lists| - 1];
    var all := Concatenated(lists);
    if i == |lists| - 1 {
      forall k | 0 <= k < |last| ensures ';' !in last[k] {
        assert last[k] == all[|Concatenated(before)| + k];
      }
    } else {
      forall k | 0 <= k < |Concatenated(before)| ensures ';' !in Concatenated(before)[k] {
        assert Concatenated(before)[k] == all[k];
      }
      PartsOfFreeAreFree(before, i);
    }
  }

  lemma {:induction false} NamelessOwnerIsLost(lists: seq<seq<string>>)
    requires forall i | 0 <= i < |lists| :: Free(lists[i], ';')
    ensures |Contributions(lists)| <= |Concatenated(lists)|
    ensures |Contributions(lists)| == |Concatenated(lists)| ==> forall i | 0 <= i < |lists| :: Faithful(lists[i])
  {
    if lists != [] {
      var before, last := lists[..|lists| - 1], lists[|lists| - 1];
      NamelessOwnerIsLost(before);
      ContributionExact(last);
      assert |Contribution(last)| <= |last| && (|Contribution(last)| == |last| ==> Faithful(last));
      assert forall i | 0 <= i < |before| :: before[i] == lists[i];
    }
  }

  /** The owners an output reads off an aggregated message are those of all its messages,
      in batch order, exactly when every message's owner list is free of ';' and is not a
      single nameless owner. */
  lemma AggregatedOwnersExact(contents: seq<Scan>, lists: seq<seq<string>>, titleH1: string -> string)
    requires |contents| == |lists| && forall i | 0 <= i < |contents| :: "owners" !in contents[i]
    ensures OwnersOf(Aggregated(Attributed(contents, lists), titleH1)) == Concatenated(lists)
       <==> forall i | 0 <= i < |lists| :: Faithful(lists[i])
  {
    var scans := Attributed(contents, lists);
    assert Values(scans, "owners") == OwnerLines(lists);
    JoinedOwnersSplit(lists);
    assert OwnersOf(Aggregated(scans, titleH1)) == Contributions(lists);
    if Contributions(lists) == Concatenated(lists) {
      ContributionsAreFree(lists);
      forall i | 0 <= i < |lists| ensures Free(lists[i], ';') {
        PartsOfFreeAreFree(lists, i);
      }
      NamelessOwnerIsLost(lists);
    }
    if forall i | 0 <= i < |lists| :: Faithful(lists[i]) {
      FaithfulContributions(lists);
    }
  }

  /** So each placeholder among the configured recipients becomes those owners. */
  lemma AggregatedRecipients(recipients: seq<string>, contents: seq<Scan>, lists: seq<seq<string>>,
                             titleH1: string -> string)
    requires |contents| == |lists| && forall i | 0 <= i < |contents| :: "owners" !in contents[i]
    requires forall i | 0 <= i < |lists| :: Faithful(lists[i])
    ensures Expand(recipients, OwnersOf(Aggregated(Attributed(contents, lists), titleH1)))
         == Flatten(seq(|recipients|, i requires 0 <= i < |recipients| =>
                      if recipients[i] == "<%application_scope_owner%>" then Flatten(lists) else [recipients[i]]))
  {
    AggregatedOwnersExact(contents, lists, titleH1);
    ConcatenatedIsFlat(lists);
    ExpandIsFlat(recipients, Flatten(lists));
    assert Replaced(recipients, Flatten(lists))
        == seq(|recipients|, i requires 0 <= i < |recipients| =>
             if recipients[i] == "<%application_scope_owner%>" then Flatten(lists) else [recipients[i]]);
  }

  lemma {:induction false} ConcatenatedIsFlat(lists: seq<seq<string>>)
    ensures Concatenated(lists) == Flatten(lists)
  {
    if lists != [] {
      var n := |lists| - 1;
      ConcatenatedIsFlat(lists[..n]);
      FlattenSnoc(lists[..n], lists[n]);
      assert lists == lists[..n] + [lists[n]];
    }
  }

  // ---------- Links ----------

  function Links(server: string, links: seq<string>, p: string -> string, a: (string, string) -> string): string {
    if links == [] then "" else
      Links(server, links[..|links| - 1], p, a) + p(a(server + links[|links| - 1], links[|links| - 1]))
  }

  lemma {:induction false} LinksAreFlat(server: string, links: seq<string>, p: string -> string,
                                       a: (string, string) -> string)
    ensures Links(server, links, p, a)
         == Flatten(seq(|links|, i requires 0 <= i < |links| => p(a(server + links[i], links[i]))))
  {
    if links != [] {
      var n := |links| - 1;
      LinksAreFlat(server, links[..n], p, a);
      var pieces := seq(|links|, i requires 0 <= i < |links| => p(a(server + links[i], links[i])));
      FlattenSnoc(pieces[..n], pieces[n]);
      assert pieces == pieces[..n] + [pieces[n]];
      assert pieces[..n] == seq(n, i requires 0 <= i < n => p(a(server + links[..n][i], links[..n][i])));
    }
  }

  method BuildShortMessage(server: string, urls: string, p: string -> string, a: (string, string) -> string)
    returns (text: string)
    ensures text == p(TOO_LONG) + Links(server, Split(urls, '\n'), p, a)
    ensures var links := Split(urls, '\n');
            text == p("This message is too long to display here. Please visit the link to read the content.")
                    + Flatten(seq(|links|, i requires 0 <= i < |links| => p(a(server + links[i], links[i]))))
  {
    text := p(TOO_LONG);
    var links := Split(urls, '\n');
    for i := 0 to |links|
      invariant text == p(TOO_LONG) + Links(server, links[..i], p, a)
    {
      assert links[..i + 1][..i] == links[..i];
      text := text + p(a(server + links[i], links[i]));
    }
    assert links[..|links|] == links;
    LinksAreFlat(server, links, p, a);
  }

  lemma {:induction false} UrlTextIsJoin(urls: seq<string>)
    requires urls != [] && urls[0] != ""
    ensures UrlText(urls) == Join(urls, "\n") && UrlText(urls) != ""
  {
    var before, last := urls[..|urls| - 1], urls[|urls| - 1];
    if |urls| > 1 {
      UrlTextIsJoin(before);
      JoinSnoc(before, last, "\n");
      assert before + [last] == urls;
    }
  }

  lemma {:induction false} LeadingEmptyUrlVanishes(urls: seq<string>)
    requires urls != [] && urls[0] == ""
    ensures UrlText(urls) == UrlText(urls[1..])
  {
    if |urls| > 1 {
      var before := urls[..|urls| - 1];
      LeadingEmptyUrlVanishes(before);
      assert before[1..] == urls[1..][..|urls[1..]| - 1];
    }
  }

  lemma {:induction false} NoMoreLinksThanUrls(urls: seq<string>)
    requires urls != [] && Free(urls, '\n')
    ensures |Split(UrlText(urls), '\n')| <= |urls|
  {
    if urls[0] != "" {
      UrlTextIsJoin(urls);
      SplitUndoesJoin(urls, '\n');
    } else {
      LeadingEmptyUrlVanishes(urls);
      if |urls| > 1 {
        NoMoreLinksThanUrls(urls[1..]);
      }
    }
  }

  /** The short message of a batch links exactly the urls of its scans, in order, if and only
      if there are scans, no url contains a newline, and the first url is not empty unless it
      is the only one. */
  lemma LinksExact(scans: seq<Scan>, titleH1: string -> string)
    ensures var urls := Urls(scans);
            Split(Aggregated(scans, titleH1)["url"], '\n') == urls
            <==> urls != [] && Free(urls, '\n') && (urls[0] != "" || |urls| == 1)
  {
    var urls := Urls(scans);
    SplitPartsAreFree(UrlText(urls), '\n');
    if urls != [] && Free(urls, '\n') {
      if urls[0] != "" {
        UrlTextIsJoin(urls);
        SplitUndoesJoin(urls, '\n');
      } else {
        LeadingEmptyUrlVanishes(urls);
        if |urls| > 1 {
          NoMoreLinksThanUrls(urls[1..]);
        }
      }
    }
  }
}
