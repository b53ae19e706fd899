/** The event a scan becomes for Splunk: sections are dropped until the event fits. */
module SplunkEvent {
  import opened Wrappers

  const DEFAULT_SIZE_LIMIT := 10000
  const EVENT_FORMAT := "{\"sourcetype\": \"_json\", \"event\": "

  /** A scan, with the three sections that can be dropped apart from the rest. */
  datatype ScanInfo = ScanInfo(core: string, resources: seq<string>, malwares: seq<string>, sensitiveData: seq<string>)

  datatype SendError = BadSource | TooLarge

  // ---------- Specification ----------

  /** The whole scan, and what is left of it after one, two and three sections are dropped. */
  function Candidates(scan: ScanInfo): seq<ScanInfo> {
    [scan,
     scan.(resources := []),
     scan.(resources := [], malwares := []),
     scan.(resources := [], malwares := [], sensitiveData := [])]
  }

  /** How long the text of a scan may be: the limit without the frame, but for one byte. */
  predicate Fits(scan: ScanInfo, marshal: ScanInfo -> string, limit: int) {
    |marshal(scan)| < limit - (|EVENT_FORMAT| - 1)
  }

  function Event(scan: ScanInfo, marshal: ScanInfo -> string): string {
    EVENT_FORMAT + marshal(scan) + "}"
  }

  function EffectiveLimit(limit: int): int {
    if limit == 0 then DEFAULT_SIZE_LIMIT else limit
  }

  /** Candidate `k` fits and none before it does. */
  predicate FirstFit(scan: ScanInfo, marshal: ScanInfo -> string, limit: int, k: nat) {
    k < 4 && Fits(Candidates(scan)[k], marshal, limit)
      && forall j | 0 <= j < k :: !Fits(Candidates(scan)[j], marshal, limit)
  }

  predicate NoFit(scan: ScanInfo, marshal: ScanInfo -> string, limit: int) {
    forall j | 0 <= j < 4 :: !Fits(Candidates(scan)[j], marshal, limit)
  }

  function Sections(scan: ScanInfo): nat {
    (if |scan.resources| > 0 then 1 else 0) + (if |scan.malwares| > 0 then 1 else 0)
      + (if |scan.sensitiveData| > 0 then 1 else 0)
  }

  class SplunkOutput {
    var url: string
    var eventLimit: int

    /** Any rendering of scans as text will do for `marshal`. The body to post is the event
        of the first candidate that fits; it is an error exactly when none does. */
    method Send(source: Option<ScanInfo>, marshal: ScanInfo -> string) returns (body: Result<string, SendError>)
      modifies this
      ensures eventLimit == EffectiveLimit(old(eventLimit))
      ensures url == if old(url) != "" && old(url)[|old(url)| - 1] == '/' then old(url) else old(url) + "/"
      ensures source.None? <==> body == Err(BadSource)
      ensures body == Err(TooLarge) <==> source.Some? && NoFit(source.value, marshal, eventLimit)
      ensures body.Ok? ==> exists k: nat :: FirstFit(source.value, marshal, eventLimit, k)
                                       && body.value == Event(Candidates(source.value)[k], marshal)
      ensures body.Ok? ==> |body.value| <= eventLimit + 1
      ensures old(eventLimit) == 0 ==> eventLimit == 10000
      ensures source.Some? ==>
                var frame := "{\"sourcetype\": \"_json\", \"event\": ";
                var room := eventLimit - |frame| + 1;
                var whole := source.value;
                var unresourced := whole.(resources := []);
                var unmalicious := unresourced.(malwares := []);
                var bare := unmalicious.(sensitiveData := []);
                body == (if |marshal(whole)| < room then Ok(frame + marshal(whole) + "}")
                         else if |marshal(unresourced)| < room then Ok(frame + marshal(unresourced) + "}")
                         else if |marshal(unmalicious)| < room then Ok(frame + marshal(unmalicious) + "}")
                         else if |marshal(bare)| < room then Ok(frame + marshal(bare) + "}")
                         else Err(TooLarge))
    {
      if eventLimit == 0 {
        eventLimit := DEFAULT_SIZE_LIMIT;
      }
      if url == "" || url[|url| - 1] != '/' {
        url := url + "/";
      }
      if source.None? {
        return Err(BadSource);
      }
      var scanInfo := source.value;
      var constLimit := |EVENT_FORMAT| - 1;
      var fields := marshal(scanInfo);
      ghost var k := 0;
      while !(|fields| < eventLimit - constLimit)
        invariant fields == marshal(scanInfo)
        invariant k < 4 && scanInfo == Candidates(source.value)[k]
        invariant forall j | 0 <= j < k :: !Fits(Candidates(source.value)[j], marshal, eventLimit)
        decreases Sections(scanInfo)
        modifies {}
      {
        var dropped := DropSection(scanInfo);
        if dropped.None? {
          NothingLeftToDrop(source.value, k, marshal, eventLimit);
          NoneFits(source.value, marshal, eventLimit);
          return Err(TooLarge);
        }
        k := SectionDropped(source.value, k, marshal, eventLimit);
        scanInfo := dropped.value;
        fields := marshal(scanInfo);
      }
      assert FirstFit(source.value, marshal, eventLimit, k);
      FirstThatFits(source.value, marshal, eventLimit, k);
      return Ok(EVENT_FORMAT + fields + "}");
    }
  }

  /** The candidates one by one. */
  lemma FirstThatFits(scan: ScanInfo, marshal: ScanInfo -> string, limit: int, k: nat)
    requires FirstFit(scan, marshal, limit, k)
    ensures k == (if Fits(scan, marshal, limit) then 0
                  else if Fits(scan.(resources := []), marshal, limit) then 1
                  else if Fits(scan.(resources := [], malwares := []), marshal, limit) then 2
                  else 3)
    ensures k == 3 ==> Fits(scan.(resources := [], malwares := [], sensitiveData := []), marshal, limit)
  {
    assert Candidates(scan)[0] == scan && Candidates(scan)[1] == scan.(resources := []);
    assert Candidates(scan)[2] == scan.(resources := [], malwares := []);
  }

  lemma NoneFits(scan: ScanInfo, marshal: ScanInfo -> string, limit: int)
    requires NoFit(scan, marshal, limit)
    ensures !Fits(scan, marshal, limit) && !Fits(scan.(resources := []), marshal, limit)
    ensures !Fits(scan.(resources := [], malwares := []), marshal, limit)
    ensures !Fits(scan.(resources := [], malwares := [], sensitiveData := []), marshal, limit)
  {
    assert Candidates(scan)[0] == scan && Candidates(scan)[1] == scan.(resources := []);
    assert Candidates(scan)[2] == scan.(resources := [], malwares := []);
    assert Candidates(scan)[3] == scan.(resources := [], malwares := [], sensitiveData := []);
  }

  /** The first section that is not empty goes, which leaves the first candidate that differs
      from the scan; there is none exactly when all three are empty. */
  function DropSection(scan: ScanInfo): (r: Option<ScanInfo>)
    ensures r.None? <==> forall j | 0 <= j < 4 :: Candidates(scan)[j] == scan
    ensures r.Some? ==> exists k :: 0 < k < 4 && r.value == Candidates(scan)[k] != scan
                                    && forall j | 0 <= j < k :: Candidates(scan)[j] == scan
    ensures r.Some? ==> Sections(r.value) == Sections(scan) - 1
  {
    if |scan.resources| > 0 then
      assert Candidates(scan)[1] == scan.(resources := []);
      Some(scan.(resources := []))
    else if |scan.malwares| > 0 then
      assert Candidates(scan)[2] == scan.(malwares := []);
      Some(scan.(malwares := []))
    else if |scan.sensitiveData| > 0 then
      assert Candidates(scan)[3] == scan.(sensitiveData := []);
      Some(scan.(sensitiveData := []))
    else None
  }

  /** Candidates that drop an empty section are no different, so the loop skips none. */
  lemma SectionDropped(scan: ScanInfo, k: nat, marshal: ScanInfo -> string, limit: int) returns (next: nat)
    requires k < 4 && DropSection(Candidates(scan)[k]).Some?
    requires forall j | 0 <= j <= k :: !Fits(Candidates(scan)[j], marshal, limit)
    ensures k < next < 4 && Candidates(scan)[next] == DropSection(Candidates(scan)[k]).value
    ensures forall j | 0 <= j < next :: !Fits(Candidates(scan)[j], marshal, limit)
  {
    var current := Candidates(scan)[k];
    next := if |current.resources| > 0 then 1 else if |current.malwares| > 0 then 2 else 3;
    assert forall j | k <= j < next :: Candidates(scan)[j] == current;
  }

  lemma NothingLeftToDrop(scan: ScanInfo, k: nat, marshal: ScanInfo -> string, limit: int)
    requires k < 4 && DropSection(Candidates(scan)[k]).None?
    requires forall j | 0 <= j <= k :: !Fits(Candidates(scan)[j], marshal, limit)
    ensures NoFit(scan, marshal, limit)
  {
    assert forall j | k <= j < 4 :: Candidates(scan)[j] == Candidates(scan)[k];
  }

  /** What the comparison of the code keeps, and the one that would keep the limit. */
  lemma LimitExceededByOne(scan: ScanInfo, marshal: ScanInfo -> string, limit: int)
    ensures Fits(scan, marshal, limit) <==> |Event(scan, marshal)| <= limit + 1
    ensures |Event(scan, marshal)| <= limit <==> |marshal(scan)| < limit - |EVENT_FORMAT|
    ensures Fits(scan, marshal, limit) && |Event(scan, marshal)| > limit <==> |marshal(scan)| == limit - |EVENT_FORMAT|
  {
  }

  /** Whatever the rendering of scans, as long as there is one character that lengthens the
      record by one byte: every scan that fits can be lengthened to one that is sent whole in
      an event one byte over the limit. */
  lemma {:induction false} OverlongEvent(scan: ScanInfo, marshal: ScanInfo -> string, pad: char, limit: int)
    returns (padded: ScanInfo)
    requires forall s: ScanInfo :: |marshal(s.(core := s.core + [pad]))| == |marshal(s)| + 1
    requires Fits(scan, marshal, limit)
    ensures padded == scan.(core := padded.core) && scan.core <= padded.core
    ensures FirstFit(padded, marshal, limit, 0) && |Event(padded, marshal)| == limit + 1
    decreases limit - |marshal(scan)|
  {
    var longer := scan.(core := scan.core + [pad]);
    if Fits(longer, marshal, limit) {
      padded := OverlongEvent(longer, marshal, pad, limit);
    } else {
      padded := scan;
    }
  }
}
