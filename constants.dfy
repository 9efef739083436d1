/** Shared constants (internal/constants/constants.go). */
module Constants {
  const EmailAdmin: string := "meowhasiswa.admin@meowhasiswa.com"
  const UserRole: string := "USER"
  const AdminRole: string := "ADMIN"

  const LikeAction: string := "LIKE"
  const UnlikeAction: string := "UNLIKE"
  const DislikeAction: string := "DISLIKE"
  const UndislikeAction: string := "UNDISLIKE"

  const UniRatingPro: string := "PRO"
  const UniRatingCon: string := "CON"
}
