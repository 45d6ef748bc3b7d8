/**
 From the id a sign-in returned to the request that names it: the header is parsed,
 and the accept loop looks the number up.
 */
module PeerIds {
  import opened Optional
  import opened HttpParser
  import opened HttpRoundTrip
  import opened SignallingServer
  import opened SignallingSafety

  /** While ids are distinct, a request that names the id of a listed peer in its Pragma
      header finds that peer if and only if the id is below 2^31. */
  lemma IdReachesItsPeer(s: State, i: nat)
    requires Inv(s) && |s.connections| <= ID_RANGE && i < |s.connections| && s.connections[i].death.None?
    ensures FindPeer(s, 0, HeaderOf(PragmaHeader(s.connections[i].peerId), BLANK).pragma) == Some(i)
            <==> s.connections[i].peerId < 0x8000_0000
  {
    hide HeaderOf, PragmaHeader, FindPeer, Sane, SocketsSane, HeldSane, SentSane, SentDistinct, AcceptSane, AllRouted;
    var id := s.connections[i].peerId;
    PragmaIsRead(id, BLANK);
    FoundIsAddressed(s, i, HeaderOf(PragmaHeader(id), BLANK).pragma);
  }
}
