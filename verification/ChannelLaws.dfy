/** The channels in terms of the visit and the tables, without the ladder: what a visit without
    tags, a tagged visit without a referrer, and paid traffic are called. */
module ChannelLaws {
  import opened Regex
  import opened Channel

  /** A visit that carries no campaign tags and no click id. */
  ghost predicate Untagged(f: Facts) {
    f.source == "" && f.medium == "" && f.campaign == "" && f.clickID == "" && "" !in f.db.ai
  }

  lemma NothingInEmpty(w: string)
    requires w != ""
    ensures !Contains("", w) && !HasSuffix("", w)
  {
  }

  lemma NothingShopsInEmpty()
    ensures !FreeShop("")
  {
  }

  /** No step decides anything by the tags of an untagged visit. */
  lemma UntaggedFacts(f: Facts)
    requires Untagged(f)
    ensures !PaidMedium(f.medium) && !Contains(f.campaign, "cross-network")
    ensures Shopping(f) <==> InSet(f.db.shop, f.referrer)
    ensures !Contains(f.medium, "video") && !HasSuffix(f.medium, "push")
    ensures !Contains(f.medium, "mobile") && !Contains(f.medium, "notification")
  {
    NothingInEmpty("cp");
    NothingInEmpty("ppc");
    NothingInEmpty("retargeting");
    NothingInEmpty("paid");
    NothingInEmpty("cross-network");
    NothingInEmpty("shopping");
    NothingShopsInEmpty();
    NothingInEmpty("video");
    NothingInEmpty("push");
    NothingInEmpty("mobile");
    NothingInEmpty("notification");
  }

  /** What an untagged visit is called, by its host alone: the organic channel of the first table
      that lists the host, and Direct for a host in none. */
  lemma UntaggedVisits(f: Facts)
    requires Untagged(f)
    ensures ChannelOf(f) ==
      if f.referrer == "" then "Direct"
      else if f.referrer in f.db.shop then "Organic Shopping"
      else if f.referrer in f.db.social then "Organic Social"
      else if f.referrer in f.db.video then "Organic Video"
      else if f.referrer in f.db.search then "Organic Search"
      else if f.referrer in f.db.referral then "Referral"
      else if f.referrer in {"email", "e-mail", "e_mail", "e mail", "gmail"} || f.referrer in f.db.email then "Email"
      else if f.referrer == "sms" then "SMS"
      else if f.referrer == "firebase" then "Mobile Push Notifications"
      else if f.referrer in f.db.ai then "AI"
      else "Direct"
  {
    UntaggedFacts(f);
    var n :=
      if f.referrer == "" then 18
      else if f.referrer in f.db.shop then 7
      else if f.referrer in f.db.social then 8
      else if f.referrer in f.db.video then 9
      else if f.referrer in f.db.search then 10
      else if f.referrer in f.db.referral then 11
      else if f.referrer in EMAIL || f.referrer in f.db.email then 12
      else if f.referrer == "sms" then 15
      else if f.referrer == "firebase" then 16
      else if f.referrer in f.db.ai then 17
      else 18;
    FirstIs(f, 0, n);
  }

  lemma CpmIsPaid()
    ensures PaidMedium("cpm")
  {
    assert Stands("cpm", "cp", 0);
  }

  /** What a tagged visit without a referrer is called, by its medium and source, while the medium
      names no paid traffic and the campaign neither a network nor a shop. */
  lemma TaggedVisits(f: Facts)
    requires f.referrer == "" && f.name == "" && !PaidMedium(f.medium)
    requires !Contains(f.campaign, "cross-network") && !Contains(f.campaign, "shopping") && !FreeShop(f.campaign)
    ensures ChannelOf(f) ==
      if f.medium in {"display", "banner", "expandable", "interstitial"} then "Display"
      else if f.medium in {"social", "social-network", "social-media", "sm", "social network", "social media"}
        then "Organic Social"
      else if Contains(f.medium, "video") then "Organic Video"
      else if f.medium == "organic" then "Organic Search"
      else if f.medium in {"referral", "app", "link"} then "Referral"
      else if f.source in {"email", "e-mail", "e_mail", "e mail", "gmail"}
        || f.medium in {"email", "e-mail", "e_mail", "e mail", "gmail"} then "Email"
      else if f.medium == "affiliate" then "Affiliates"
      else if f.medium == "audio" then "Audio"
      else if f.source == "sms" || f.medium == "sms" then "SMS"
      else if HasSuffix(f.medium, "push") || Contains(f.medium, "mobile") || Contains(f.medium, "notification")
        || f.source == "firebase" then "Mobile Push Notifications"
      else if f.source in f.db.ai then "AI"
      else "Direct"
  {
    CpmIsPaid();
    var n :=
      if f.medium in DISPLAY then 5
      else if f.medium in SOCIAL then 8
      else if Contains(f.medium, "video") then 9
      else if f.medium == "organic" then 10
      else if f.medium in REFERRAL then 11
      else if f.source in EMAIL || f.medium in EMAIL then 12
      else if f.medium == "affiliate" then 13
      else if f.medium == "audio" then 14
      else if f.source == "sms" || f.medium == "sms" then 15
      else if HasSuffix(f.medium, "push") || Contains(f.medium, "mobile") || Contains(f.medium, "notification")
        || f.source == "firebase" then 16
      else if f.source in f.db.ai then 17
      else 18;
    FirstIs(f, 0, n);
  }

  /** What paid traffic is called, outside cross-network campaigns: by the table that lists its
      host, then as display, then as paid without a channel of its own. */
  lemma PaidVisits(f: Facts)
    requires PaidMedium(f.medium) && !Contains(f.campaign, "cross-network")
    requires f.clickID !in {"(gclid)", "(msclkid)"}
    ensures ChannelOf(f) ==
      if (f.referrer != "" && f.referrer in f.db.shop) || Contains(f.campaign, "shopping") || FreeShop(f.campaign)
        then "Paid Shopping"
      else if f.referrer != "" && f.referrer in f.db.search then "Paid Search"
      else if f.referrer != "" && f.referrer in f.db.social then "Paid Social"
      else if f.referrer != "" && f.referrer in f.db.video then "Paid Video"
      else if f.medium == "cpm" || f.medium in {"display", "banner", "expandable", "interstitial"} then "Display"
      else "Paid Other"
  {
    var n :=
      if Shopping(f) then 1
      else if InSet(f.db.search, f.referrer) then 2
      else if InSet(f.db.social, f.referrer) then 3
      else if InSet(f.db.video, f.referrer) then 4
      else if f.medium in DISPLAY then 5
      else 6;
    FirstIs(f, 0, n);
  }

  /** A search visit with the click id of its own engine is paid whatever its medium, unless it is
      cross-network or paid shopping. */
  lemma ClickIdsArePaidSearch(f: Facts)
    requires (f.name == "google" && f.clickID == "(gclid)") || (f.name == "bing" && f.clickID == "(msclkid)")
    requires !Contains(f.campaign, "cross-network") && !(Shopping(f) && PaidMedium(f.medium))
    ensures ChannelOf(f) == "Paid Search"
  {
    FirstIs(f, 0, 2);
  }

  /** An organic visit from a listed host keeps its table's channel whatever the source tag says:
      shopping campaigns and hosts come first, then social, video and search hosts. */
  lemma OrganicHosts(f: Facts)
    requires f.referrer != "" && !PaidMedium(f.medium) && !Contains(f.campaign, "cross-network")
    requires f.clickID !in {"(gclid)", "(msclkid)"} && f.medium !in DISPLAY
    ensures f.referrer in f.db.shop || Contains(f.campaign, "shopping") || FreeShop(f.campaign) ==>
      ChannelOf(f) == "Organic Shopping"
    ensures !Shopping(f) && f.referrer in f.db.social ==> ChannelOf(f) == "Organic Social"
    ensures !Shopping(f) && f.referrer !in f.db.social && f.medium !in SOCIAL && f.referrer in f.db.video ==>
      ChannelOf(f) == "Organic Video"
  {
    if Shopping(f) {
      FirstIs(f, 0, 7);
    } else if f.referrer in f.db.social {
      FirstIs(f, 0, 8);
    } else if f.referrer in f.db.video && f.medium !in SOCIAL {
      FirstIs(f, 0, 9);
    }
  }
}
