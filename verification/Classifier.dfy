/** The SMTP error classifier that feeds the delivery status and the IP reputation tracker. */
module Classifier {
  import opened Common

  datatype Category = Temporary | Permanent | Greylist | Network | Reputation

  /** immediateDegrade is meaningful only for Reputation: a listing that needs no corroboration. */
  datatype DeliveryError = DeliveryError(category: Category, code: nat, immediateDegrade: bool)

  const STRONG_KEYWORDS: seq<string> :=
    ["blacklist", "poor reputation", "rbl", "dnsbl", "spamhaus", "proofpoint", "cloudmark", "barracuda"]

  const WEAK_KEYWORDS: seq<string> := ["blocked", "rejected for policy reasons"]

  const IP_SIGNALS: seq<string> :=
    ["your ip", "ip address", "sending ip", "is listed", "listed on", "listed in", "listed by", "reputation",
     "ptr", "rdns", "reverse dns", "blocklist", "blacklist"]

  const GREYLIST_KEYWORDS: seq<string> :=
    ["greylist", "graylist", "grey-list", "gray-list", "grey listed", "gray listed"]

  predicate HasIpScopedSignal(responseLower: string, sourceIp: string) {
    || (sourceIp != "" && Contains(responseLower, ToLower(sourceIp)))
    || ContainsAny(responseLower, IP_SIGNALS)
  }

  predicate StrongListing(response: string) {
    ContainsAny(ToLower(response), STRONG_KEYWORDS)
  }

  predicate WeakListing(code: nat, response: string, sourceIp: string) {
    && 500 <= code < 600
    && ContainsAny(ToLower(response), WEAK_KEYWORDS)
    && HasIpScopedSignal(ToLower(response), sourceIp)
  }

  /** Code 0 stands for an error that carries no SMTP code. */
  function ClassifyError(code: nat, response: string, sourceIp: string): Option<DeliveryError> {
    if code == 0 then Some(DeliveryError(Network, 0, false))
    else if 200 <= code < 300 then None
    else if StrongListing(response) then Some(DeliveryError(Reputation, code, true))
    else if WeakListing(code, response, sourceIp) then Some(DeliveryError(Reputation, code, false))
    else if 400 <= code < 500 && ContainsAny(ToLower(response), GREYLIST_KEYWORDS) then
      Some(DeliveryError(Greylist, code, false))
    else if 400 <= code < 500 then Some(DeliveryError(Temporary, code, false))
    else if 500 <= code < 600 then Some(DeliveryError(Permanent, code, false))
    else Some(DeliveryError(Network, code, false))
  }
}
