/** The host setting read by `Controller.get_identity_info` (controller.py):
    a comma-separated list of Modbus adapters, each either a bare host that
    uses the configured port or `host:port`. Spaces anywhere are ignored. */
module HostList {
  import opened Common
  import opened Text

  /** One Modbus adapter to scan. */
  datatype Endpoint = Endpoint(host: string, port: int)

  /** One comma-separated piece. With a colon, the host is the text before
      the first colon and the port the integer after it (anything after a
      second colon is ignored); `None` stands for the ValueError of a port
      that is not an integer. */
  function ParseEndpoint(piece: string, defaultPort: int): (r: Option<Endpoint>)
    ensures ':' !in piece ==> r == Some(Endpoint(piece, defaultPort))
    ensures ':' in piece ==> |Split(piece, ':')| >= 2
    ensures ':' in piece ==> (r.Some? <==> ParseInt(Split(piece, ':')[1]).Some?)
    ensures r.Some? ==> ':' !in r.value.host && |r.value.host| <= |piece|
  {
    if ':' !in piece then Some(Endpoint(piece, defaultPort))
    else
      var parts := Split(piece, ':');
      assert parts == [piece[..IndexOf(piece, ':')]] + Split(piece[IndexOf(piece, ':') + 1..], ':');
      match ParseInt(parts[1])
      case None => None
      case Some(port) => Some(Endpoint(parts[0], port))
  }

  /** Every piece in order; one bad port fails the whole list. */
  function ParseAll(pieces: seq<string>, defaultPort: int): (r: Option<seq<Endpoint>>)
    ensures r.None? <==> exists k :: 0 <= k < |pieces| && ParseEndpoint(pieces[k], defaultPort).None?
    ensures r.Some? ==> |r.value| == |pieces|
    ensures r.Some? ==> forall k :: 0 <= k < |pieces| ==> Some(r.value[k]) == ParseEndpoint(pieces[k], defaultPort)
  {
    if pieces == [] then Some([])
    else
      match ParseEndpoint(pieces[0], defaultPort)
      case None => None
      case Some(first) =>
        var rest := ParseAll(pieces[1..], defaultPort);
        assert forall k :: 1 <= k < |pieces| ==> pieces[k] == pieces[1..][k - 1];
        if rest.None? then None else Some([first] + rest.value)
  }

  /** The adapters `get_identity_info` scans, in order. */
  function ParseHosts(host: string, defaultPort: int): (r: Option<seq<Endpoint>>)
    ensures r.Some? ==> |r.value| == |Split(Remove(host, ' '), ',')| >= 1
  {
    ParseAll(Split(Remove(host, ' '), ','), defaultPort)
  }

  /** Every adapter parsed from the setting has a host free of spaces,
      commas and colons. */
  lemma ParsedHostsArePlain(host: string, defaultPort: int)
    ensures var r := ParseHosts(host, defaultPort);
      r.Some? ==> forall k :: 0 <= k < |r.value| ==> PlainHost(r.value[k].host)
  {
    var pieces := Split(Remove(host, ' '), ',');
    var r := ParseHosts(host, defaultPort);
    if r.Some? {
      SplitAvoids(Remove(host, ' '), ',', ' ');
      forall k | 0 <= k < |r.value| ensures PlainHost(r.value[k].host) {
        var piece := pieces[k];
        assert ' ' !in piece && ',' !in piece;
        if ':' in piece {
          var parts := Split(piece, ':');
          assert r.value[k].host == parts[0];
          SplitAvoids(piece, ':', ' ');
          SplitAvoids(piece, ':', ',');
        }
      }
    }
  }

  /** A piece of a split string holds no character the string does not. */
  lemma {:induction false} SplitAvoids(s: string, sep: char, c: char)
    requires c !in s
    ensures forall k :: 0 <= k < |Split(s, sep)| ==> c !in Split(s, sep)[k]
    decreases |s|
  {
    if sep in s {
      var i := IndexOf(s, sep);
      assert forall j :: 0 <= j < i ==> s[..i][j] == s[j];
      assert forall j :: i + 1 <= j < |s| ==> s[i + 1..][j - i - 1] == s[j];
      SplitAvoids(s[i + 1..], sep, c);
    }
  }

  /** The setting text for a list of adapters, each with its port. */
  function Render(eps: seq<Endpoint>): string
    requires |eps| >= 1
  {
    Join(RenderPieces(eps), ',')
  }

  function RenderPieces(eps: seq<Endpoint>): (pieces: seq<string>)
    ensures |pieces| == |eps|
    ensures forall k :: 0 <= k < |eps| ==> pieces[k] == Join([eps[k].host, IntToString(eps[k].port)], ':')
  {
    if eps == [] then []
    else [Join([eps[0].host, IntToString(eps[0].port)], ':')] + RenderPieces(eps[1..])
  }

  /** A host name the setting can carry. */
  predicate PlainHost(h: string)
  {
    ' ' !in h && ',' !in h && ':' !in h
  }

  /** Writing a list of adapters as `host:port,host:port,...` and parsing it
      gives the same adapters back, whatever the configured port. */
  lemma RenderRoundTrip(eps: seq<Endpoint>, defaultPort: int)
    requires |eps| >= 1
    requires forall k :: 0 <= k < |eps| ==> PlainHost(eps[k].host)
    ensures ParseHosts(Render(eps), defaultPort) == Some(eps)
  {
    var pieces := RenderPieces(eps);
    forall k | 0 <= k < |eps|
      ensures ' ' !in pieces[k] && ',' !in pieces[k]
      ensures ParseEndpoint(pieces[k], defaultPort) == Some(eps[k])
    {
      PieceRoundTrip(eps[k], defaultPort);
    }
    JoinAvoids(pieces, ',', ' ');
    SplitJoin(pieces, ',');
    var r := ParseAll(pieces, defaultPort);
    assert r.Some?;
    assert r.value == eps;
  }

  lemma PieceRoundTrip(ep: Endpoint, defaultPort: int)
    requires PlainHost(ep.host)
    ensures var piece := Join([ep.host, IntToString(ep.port)], ':');
      ' ' !in piece && ',' !in piece && ParseEndpoint(piece, defaultPort) == Some(ep)
  {
    var digits := IntToString(ep.port);
    var parts := [ep.host, digits];
    assert ' ' !in digits && ',' !in digits && ':' !in digits by {
      forall i | 0 <= i < |digits| ensures digits[i] != ' ' && digits[i] != ',' && digits[i] != ':' {
        assert IsDigit(digits[i]) || digits[i] == '-';
      }
    }
    assert Join(parts[1..], ':') == digits;
    var piece := Join(parts, ':');
    assert piece == ep.host + [':'] + digits;
    assert piece[|ep.host|] == ':';
    JoinAvoids(parts, ':', ' ');
    JoinAvoids(parts, ':', ',');
    SplitJoin(parts, ':');
    ParseIntToString(ep.port);
  }

  /** A list of bare hosts gets the configured port on every adapter. */
  lemma BareHostsUseConfiguredPort(hosts: seq<string>, defaultPort: int)
    requires |hosts| >= 1
    requires forall k :: 0 <= k < |hosts| ==> PlainHost(hosts[k])
    ensures var r := ParseHosts(Join(hosts, ','), defaultPort);
      && r.Some? && |r.value| == |hosts|
      && forall k :: 0 <= k < |hosts| ==> r.value[k] == Endpoint(hosts[k], defaultPort)
  {
    JoinAvoids(hosts, ',', ' ');
    SplitJoin(hosts, ',');
  }

  /** A port that is not an integer fails the whole list, wherever it is. */
  lemma BadPortFailsList(host: string, defaultPort: int, k: int)
    requires var pieces := Split(Remove(host, ' '), ',');
      0 <= k < |pieces| && ':' in pieces[k] && ParseInt(Split(pieces[k], ':')[1]).None?
    ensures ParseHosts(host, defaultPort).None?
  {
  }
}
