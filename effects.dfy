/** The commands the engine issues to the system. They are not executed here:
    a class that issues one appends it to its ghost `commands` log. */
module Effects {
  import opened Wrappers

  datatype Command =
      /** `conntrack -D -p udp --dport <dport> [--sport <sport>] --src <src>`:
          delete the matching UDP flows. */
      ConntrackDelete(dport: string, sport: Option<string>, src: string)
      /** `systemctl restart zivpn.service`: reload the credential list. */
    | RestartTunnel
}
