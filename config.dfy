/** The repository and channel the functions work against (functions/index.js:51-63). */
module Config {
  const Owner: string := "Gooreum"
  const Repo: string := "CrashlyticsIntegration"
  const DefaultBranch: string := "Development"
  const ChannelId: string := "C0AEKU0J1MY"
}
