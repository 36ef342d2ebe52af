/** `PremiumAccessUtil`: the zodiac sign and MBTI type of a user are shown only to paying tiers. */
module PremiumAccess {

  import opened Wrappers
  import opened Entities
  import ReferralService

  /** `hasAdvancedTraits`: a null user or a null tier has none. Exactly the paying tiers carry the
    * traits; FREE, an unset tier and a missing user do not. */
  function HasAdvancedTraits(user: Option<User>): (b: bool)
    ensures b <==> user.Some? && user.value.tier.Some? && user.value.tier.value != FREE
    ensures user.None? || user.value.tier.None? ==> !b
  {
    user.Some? && user.value.tier.Some?
    && (user.value.tier.value == PREMIUM || user.value.tier.value == ELITE)
  }

  /** The two trait columns of the `UserResponse` under construction. */
  class ResponseBuilder {
    var zodiacSign: Option<string>
    var mbtiType: Option<string>

    /** `UserResponse.builder()`: nothing set yet. */
    constructor ()
      ensures zodiacSign.None? && mbtiType.None?
    {
      zodiacSign := None;
      mbtiType := None;
    }
  }

  /** `applyPremiumTraits`: a null builder is left alone; otherwise the user's own traits are copied
    * for an advanced user, and both traits are cleared for everyone else. */
  method ApplyPremiumTraits(user: Option<User>, builder: ResponseBuilder?)
    modifies builder
    ensures builder != null && HasAdvancedTraits(user) ==>
      builder.zodiacSign == user.value.zodiacSign && builder.mbtiType == user.value.mbtiType
    ensures builder != null && !HasAdvancedTraits(user) ==>
      builder.zodiacSign.None? && builder.mbtiType.None?
  {
    if builder == null {
      return;
    }
    if HasAdvancedTraits(user) {
      builder.zodiacSign := if user.Some? then user.value.zodiacSign else None;
      builder.mbtiType := if user.Some? then user.value.mbtiType else None;
    } else {
      builder.zodiacSign := None;
      builder.mbtiType := None;
    }
  }

  /** Claiming the referral reward unlocks the traits exactly for a user whose tier is set: FREE
    * becomes PREMIUM and paying tiers stay, while an unset tier is not upgraded. */
  lemma RewardUnlocksTraits(u: User)
    ensures HasAdvancedTraits(Some(ReferralService.Upgraded(u))) <==> u.tier.Some?
  {
  }
}
